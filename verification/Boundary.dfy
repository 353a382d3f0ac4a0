/** pkg/modulecontract/contract.go: the executable module boundary. */
module Boundary {
  import opened Sequences
  import Text

  const MODULE_PATH := "github.com/septagon-oss/pk-modules/pkg/"

  // Syntax as far as the walk looks at it. The base of a selector is its x.
  datatype Node = Ident(name: string) | Selector(x: Node, sel: string, pos: string) | Other(children: seq<Node>)

  // A literal that does not unquote has no path; name is the explicit alias.
  datatype Import = Import(path: Option<string>, name: Option<string>, pos: string)

  datatype File = File(path: string, parses: bool, imports: seq<Import>, syntax: Node)

  // A directory under the root: whether it holds .go files itself, and every file below it.
  datatype Entry = Entry(name: string, hasGo: bool, files: seq<File>)

  // The declared table: shared vocabulary and the ports each module publishes.
  datatype Contract = Contract(vocabulary: set<string>, ports: map<string, seq<string>>)

  datatype Reason = Subpackage(sub: string) | Undeclared | Stale
  datatype Violation = Violation(consumer: string, provider: string, ref: string, pos: string, reason: Reason)
  datatype ParseFailure = ParseFailure(path: string)

  // ----- names -----

  predicate HasSuffix(s: string, suffix: string) {
    |suffix| <= |s| && s[|s| - |suffix|..] == suffix
  }

  predicate IsSource(f: File) {
    HasSuffix(f.path, ".go") && !HasSuffix(f.path, "_test.go")
  }

  // strings.Cut(s, "/")
  function Cut(s: string): (string, Option<string>) {
    if s == [] then ([], None)
    else if s[0] == '/' then ([], Some(s[1..]))
    else
      var rest := Cut(s[1..]);
      ([s[0]] + rest.0, rest.1)
  }

  function Rejoined(top: string, sub: Option<string>): string {
    top + if sub.Some? then ['/'] + sub.value else []
  }

  // Cut splits at the first slash, in the one way there is.
  lemma {:induction false} CutIsExact(s: string, top: string, sub: Option<string>)
    ensures Cut(s) == (top, sub) <==> '/' !in top && s == Rejoined(top, sub)
  {
    if top == [] {
      CutAtOnce(s, sub);
    } else {
      assert top == [top[0]] + top[1..];
      assert Rejoined(top, sub)[1..] == Rejoined(top[1..], sub);
      if s != [] && s[0] == top[0] && s[0] != '/' {
        CutIsExact(s[1..], top[1..], sub);
        assert s == [s[0]] + s[1..];
      }
    }
  }

  lemma CutAtOnce(s: string, sub: Option<string>)
    ensures Cut(s) == ([], sub) <==> s == Rejoined([], sub)
  {
    if sub.Some? {
      assert Rejoined([], sub)[1..] == sub.value;
    }
    if s != [] && s[0] == '/' {
      assert s == ['/'] + s[1..];
    }
  }

  function PortsOf(c: Contract, provider: string): seq<string> {
    if provider in c.ports then c.ports[provider] else []
  }

  // The sibling module an import reaches, and the subpackage it names there.
  function SiblingImport(c: Contract, consumer: string, modules: seq<string>, imp: Import)
    : Option<(string, Option<string>)>
  {
    if imp.path.None? || !(MODULE_PATH <= imp.path.value) then None
    else
      var cut := Cut(imp.path.value[|MODULE_PATH|..]);
      if cut.0 == consumer || cut.0 in c.vocabulary || cut.0 !in modules then None else Some(cut)
  }

  // The import is of this sibling: its path is the module path, the sibling's
  // name and, after a slash, the subpackage if it names one.
  predicate NamesSibling(c: Contract, consumer: string, modules: seq<string>, imp: Import, top: string,
      sub: Option<string>) {
    && imp.path == Some(MODULE_PATH + Rejoined(top, sub))
    && '/' !in top && top != consumer && top !in c.vocabulary && top in modules
  }

  // That is what the walk takes for a sibling import, and nothing else.
  lemma SiblingImportMeans(c: Contract, consumer: string, modules: seq<string>, imp: Import, top: string,
      sub: Option<string>)
    ensures SiblingImport(c, consumer, modules, imp) == Some((top, sub)) <==>
            NamesSibling(c, consumer, modules, imp, top, sub)
  {
    if imp.path.Some? && MODULE_PATH <= imp.path.value {
      var rest := imp.path.value[|MODULE_PATH|..];
      assert imp.path.value == MODULE_PATH + rest;
      CutIsExact(rest, top, sub);
      assert (MODULE_PATH + Rejoined(top, sub))[|MODULE_PATH|..] == Rejoined(top, sub);
    }
  }

  // The import gives the sibling's root package this local name.
  predicate Binds(c: Contract, consumer: string, modules: seq<string>, imp: Import, alias: string, provider: string) {
    && NamesSibling(c, consumer, modules, imp, provider, None)
    && alias == (if imp.name.Some? then imp.name.value else provider)
  }

  // The last import that gives the name gives it to this sibling.
  ghost predicate StandsFor(c: Contract, consumer: string, modules: seq<string>, imports: seq<Import>, alias: string,
      provider: string) {
    exists i | 0 <= i < |imports| ::
      && Binds(c, consumer, modules, imports[i], alias, provider)
      && forall j, q | i < j < |imports| :: !Binds(c, consumer, modules, imports[j], alias, q)
  }

  // ----- what a file says -----

  // s occurs in n.
  ghost predicate Subterm(s: Node, n: Node)
    decreases n
  {
    s == n ||
    match n
    case Ident(_) => false
    case Selector(x, _, _) => Subterm(s, x)
    case Other(children) => exists i | 0 <= i < |children| :: Subterm(s, children[i])
  }

  // The selector with this bare base occurs in n.
  ghost predicate Mentions(n: Node, r: Reference) {
    Subterm(Selector(Ident(r.base), r.sel, r.pos), n)
  }

  datatype Reference = Reference(base: string, sel: string, pos: string)

  // Selectors with a bare identifier as base, in the order the walk meets them.
  function References(n: Node): seq<Reference>
    decreases n, 0
  {
    match n
    case Ident(_) => []
    case Selector(x, sel, pos) => (if x.Ident? then [Reference(x.name, sel, pos)] else []) + References(x)
    case Other(children) => ReferencesIn(children)
  }

  function ReferencesIn(ns: seq<Node>): seq<Reference>
    decreases ns, 1
  {
    if ns == [] then [] else References(ns[0]) + ReferencesIn(ns[1..])
  }

  // The walk collects exactly the selectors with a bare base, however deep they are.
  lemma {:induction false} ReferencesAre(n: Node, r: Reference)
    ensures r in References(n) <==> Mentions(n, r)
    decreases n, 0
  {
    match n
    case Ident(_) =>
    case Selector(x, _, _) => ReferencesAre(x, r);
    case Other(children) => ReferencesInAre(children, r);
  }

  lemma {:induction false} ReferencesInAre(ns: seq<Node>, r: Reference)
    ensures r in ReferencesIn(ns) <==> exists i | 0 <= i < |ns| :: Mentions(ns[i], r)
    decreases ns, 1
  {
    if ns != [] {
      ReferencesAre(ns[0], r);
      ReferencesInAre(ns[1..], r);
      forall i | 0 < i < |ns| ensures ns[i] == ns[1..][i - 1] {
      }
    }
  }

  predicate RootImport(c: Contract, consumer: string, modules: seq<string>, imp: Import) {
    var s := SiblingImport(c, consumer, modules, imp);
    s.Some? && s.value.1.None?
  }

  function AliasOf(c: Contract, consumer: string, modules: seq<string>, imp: Import): string
    requires RootImport(c, consumer, modules, imp)
  {
    if imp.name.Some? then imp.name.value else SiblingImport(c, consumer, modules, imp).value.0
  }

  // The sibling each local alias stands for; the last import of an alias counts.
  function Aliases(c: Contract, consumer: string, modules: seq<string>, imports: seq<Import>): map<string, string> {
    if imports == [] then map[]
    else
      var front, last := Aliases(c, consumer, modules, imports[..|imports| - 1]), imports[|imports| - 1];
      if RootImport(c, consumer, modules, last) then
        front[AliasOf(c, consumer, modules, last) := SiblingImport(c, consumer, modules, last).value.0]
      else front
  }

  lemma RootImportMeans(c: Contract, consumer: string, modules: seq<string>, imp: Import, alias: string,
      provider: string)
    ensures Binds(c, consumer, modules, imp, alias, provider) <==>
            && RootImport(c, consumer, modules, imp) && AliasOf(c, consumer, modules, imp) == alias
            && SiblingImport(c, consumer, modules, imp).value.0 == provider
  {
    SiblingImportMeans(c, consumer, modules, imp, provider, None);
    if RootImport(c, consumer, modules, imp) {
      var top := SiblingImport(c, consumer, modules, imp).value.0;
      SiblingImportMeans(c, consumer, modules, imp, top, None);
    }
  }

  // A local name stands for the sibling the last import of it names.
  lemma {:induction false} AliasesMean(c: Contract, consumer: string, modules: seq<string>, imports: seq<Import>,
      alias: string, provider: string)
    ensures StandsFor(c, consumer, modules, imports, alias, provider) <==>
            var aliases := Aliases(c, consumer, modules, imports); alias in aliases && aliases[alias] == provider
  {
    if imports != [] {
      var front, last := imports[..|imports| - 1], imports[|imports| - 1];
      AliasesMean(c, consumer, modules, front, alias, provider);
      RootImportMeans(c, consumer, modules, last, alias, provider);
      StandsForOneMore(c, consumer, modules, imports, alias, provider);
      if RootImport(c, consumer, modules, last) && AliasOf(c, consumer, modules, last) == alias {
        RootImportMeans(c, consumer, modules, last, alias, SiblingImport(c, consumer, modules, last).value.0);
      } else {
        forall q ensures !Binds(c, consumer, modules, last, alias, q) {
          RootImportMeans(c, consumer, modules, last, alias, q);
        }
      }
    }
  }

  lemma StandsForOneMore(c: Contract, consumer: string, modules: seq<string>, imports: seq<Import>, alias: string,
      provider: string)
    requires imports != []
    ensures var front, last := imports[..|imports| - 1], imports[|imports| - 1];
            StandsFor(c, consumer, modules, imports, alias, provider) <==>
            || Binds(c, consumer, modules, last, alias, provider)
            || (StandsFor(c, consumer, modules, front, alias, provider) &&
                forall q :: !Binds(c, consumer, modules, last, alias, q))
  {
    var front, last := imports[..|imports| - 1], imports[|imports| - 1];
    var free := forall q :: !Binds(c, consumer, modules, last, alias, q);
    if StandsFor(c, consumer, modules, front, alias, provider) && free {
      var i :| 0 <= i < |front| && Binds(c, consumer, modules, front[i], alias, provider) &&
               forall j, q | i < j < |front| :: !Binds(c, consumer, modules, front[j], alias, q);
      assert imports[i] == front[i];
      forall j, q | i < j < |imports| ensures !Binds(c, consumer, modules, imports[j], alias, q) {
        assert j < |front| ==> imports[j] == front[j];
      }
    }
    var bound := Binds(c, consumer, modules, last, alias, provider);
    if StandsFor(c, consumer, modules, imports, alias, provider) && !bound {
      var i :| 0 <= i < |imports| && Binds(c, consumer, modules, imports[i], alias, provider) &&
               forall j, q | i < j < |imports| :: !Binds(c, consumer, modules, imports[j], alias, q);
      assert front[i] == imports[i];
      forall j, q | i < j < |front| ensures !Binds(c, consumer, modules, front[j], alias, q) {
        assert imports[j] == front[j];
      }
    }
  }

  predicate DeepImport(c: Contract, consumer: string, modules: seq<string>, imp: Import) {
    var s := SiblingImport(c, consumer, modules, imp);
    s.Some? && s.value.1.Some?
  }

  function DeepViolation(c: Contract, consumer: string, modules: seq<string>, imp: Import): Violation
    requires DeepImport(c, consumer, modules, imp)
  {
    var s := SiblingImport(c, consumer, modules, imp).value;
    Violation(consumer, s.0, imp.path.value[|MODULE_PATH|..], imp.pos, Subpackage(s.1.value))
  }

  function DeepViolations(c: Contract, consumer: string, modules: seq<string>, imports: seq<Import>): seq<Violation> {
    if imports == [] then []
    else
      var front, last := DeepViolations(c, consumer, modules, imports[..|imports| - 1]), imports[|imports| - 1];
      if DeepImport(c, consumer, modules, last) then front + [DeepViolation(c, consumer, modules, last)] else front
  }

  predicate Reaches(aliases: map<string, string>, r: Reference) {
    r.base in aliases
  }

  predicate Permitted(c: Contract, aliases: map<string, string>, r: Reference)
    requires Reaches(aliases, r)
  {
    r.sel in PortsOf(c, aliases[r.base])
  }

  function SurfaceViolations(c: Contract, consumer: string, aliases: map<string, string>,
      refs: seq<Reference>): seq<Violation> {
    if refs == [] then []
    else
      var front, last := SurfaceViolations(c, consumer, aliases, refs[..|refs| - 1]), refs[|refs| - 1];
      if Reaches(aliases, last) && !Permitted(c, aliases, last) then
        front + [Violation(consumer, aliases[last.base], last.sel, last.pos, Undeclared)]
      else front
  }

  function FileViolations(c: Contract, consumer: string, modules: seq<string>, f: File): seq<Violation> {
    DeepViolations(c, consumer, modules, f.imports) +
    SurfaceViolations(c, consumer, Aliases(c, consumer, modules, f.imports), References(f.syntax))
  }

  // Some reference names this declared port through an alias of its provider.
  predicate UsesPort(c: Contract, aliases: map<string, string>, r: Reference, provider: string, ident: string) {
    Reaches(aliases, r) && Permitted(c, aliases, r) && aliases[r.base] == provider && r.sel == ident
  }

  predicate UsedAmong(c: Contract, aliases: map<string, string>, refs: seq<Reference>, provider: string,
      ident: string) {
    exists r | r in refs :: UsesPort(c, aliases, r, provider, ident)
  }

  predicate Uses(c: Contract, consumer: string, modules: seq<string>, f: File, provider: string, ident: string) {
    UsedAmong(c, Aliases(c, consumer, modules, f.imports), References(f.syntax), provider, ident)
  }

  lemma UsedOneMore(c: Contract, aliases: map<string, string>, refs: seq<Reference>, r: Reference)
    ensures forall p, i :: UsedAmong(c, aliases, refs + [r], p, i) <==>
              UsedAmong(c, aliases, refs, p, i) || UsesPort(c, aliases, r, p, i)
  {
    assert r in refs + [r] && forall q | q in refs :: q in refs + [r];
  }

  // used[provider][ident]
  type Used = map<string, set<string>>

  predicate Marked(used: Used, provider: string, ident: string) {
    provider in used && ident in used[provider]
  }

  function Mark(used: Used, provider: string, ident: string): Used {
    used[provider := (if provider in used then used[provider] else {}) + {ident}]
  }

  predicate Port(c: Contract, provider: string, ident: string) {
    provider in c.ports && ident in c.ports[provider]
  }

  // The file names this port of a sibling through a name that stands for it.
  ghost predicate NamesPort(c: Contract, consumer: string, modules: seq<string>, f: File, provider: string,
      ident: string) {
    Port(c, provider, ident) &&
    exists r :: Mentions(f.syntax, r) && r.sel == ident && StandsFor(c, consumer, modules, f.imports, r.base, provider)
  }

  // The file imports a sibling's subpackage.
  ghost predicate DeepBreach(c: Contract, consumer: string, modules: seq<string>, f: File, v: Violation) {
    exists imp, top, sub ::
      && imp in f.imports && NamesSibling(c, consumer, modules, imp, top, Some(sub))
      && v == Violation(consumer, top, top + ['/'] + sub, imp.pos, Subpackage(sub))
  }

  // The file names something of a sibling that is no port of it.
  ghost predicate SurfaceBreach(c: Contract, consumer: string, modules: seq<string>, f: File, v: Violation) {
    exists r, p ::
      && Mentions(f.syntax, r) && StandsFor(c, consumer, modules, f.imports, r.base, p) && !Port(c, p, r.sel)
      && v == Violation(consumer, p, r.sel, r.pos, Undeclared)
  }

  lemma UsesMeans(c: Contract, consumer: string, modules: seq<string>, f: File, provider: string, ident: string)
    ensures Uses(c, consumer, modules, f, provider, ident) <==> NamesPort(c, consumer, modules, f, provider, ident)
  {
    var aliases, refs := Aliases(c, consumer, modules, f.imports), References(f.syntax);
    if r :| r in refs && UsesPort(c, aliases, r, provider, ident) {
      ReferencesAre(f.syntax, r);
      AliasesMean(c, consumer, modules, f.imports, r.base, provider);
    }
    if Port(c, provider, ident) {
      forall r | Mentions(f.syntax, r) && r.sel == ident && StandsFor(c, consumer, modules, f.imports, r.base, provider)
        ensures r in refs && UsesPort(c, aliases, r, provider, ident)
      {
        ReferencesAre(f.syntax, r);
        AliasesMean(c, consumer, modules, f.imports, r.base, provider);
      }
    }
  }

  lemma DeepMeans(c: Contract, consumer: string, modules: seq<string>, f: File, v: Violation)
    ensures DeepBreach(c, consumer, modules, f, v) <==>
            exists imp :: imp in f.imports && DeepImport(c, consumer, modules, imp) &&
              v == DeepViolation(c, consumer, modules, imp)
  {
    if imp, top, sub :| imp in f.imports && NamesSibling(c, consumer, modules, imp, top, Some(sub)) &&
                        v == Violation(consumer, top, top + ['/'] + sub, imp.pos, Subpackage(sub)) {
      DeepIsNamed(c, consumer, modules, imp, top, sub);
    }
    if imp :| imp in f.imports && DeepImport(c, consumer, modules, imp) &&
              v == DeepViolation(c, consumer, modules, imp) {
      var cut := SiblingImport(c, consumer, modules, imp).value;
      DeepIsNamed(c, consumer, modules, imp, cut.0, cut.1.value);
      assert NamesSibling(c, consumer, modules, imp, cut.0, Some(cut.1.value));
    }
  }

  lemma DeepIsNamed(c: Contract, consumer: string, modules: seq<string>, imp: Import, top: string, sub: string)
    ensures NamesSibling(c, consumer, modules, imp, top, Some(sub)) <==>
            SiblingImport(c, consumer, modules, imp) == Some((top, Some(sub)))
    ensures SiblingImport(c, consumer, modules, imp) == Some((top, Some(sub))) ==>
              DeepViolation(c, consumer, modules, imp) ==
              Violation(consumer, top, top + ['/'] + sub, imp.pos, Subpackage(sub))
  {
    SiblingImportMeans(c, consumer, modules, imp, top, Some(sub));
    if NamesSibling(c, consumer, modules, imp, top, Some(sub)) {
      assert imp.path.value[|MODULE_PATH|..] == Rejoined(top, Some(sub));
      assert Rejoined(top, Some(sub)) == top + ['/'] + sub;
    }
  }

  lemma FileMeans(c: Contract, consumer: string, modules: seq<string>, f: File)
    ensures forall v :: v in FileViolations(c, consumer, modules, f) <==>
              DeepBreach(c, consumer, modules, f, v) || SurfaceBreach(c, consumer, modules, f, v)
    ensures forall p, i :: Uses(c, consumer, modules, f, p, i) <==> NamesPort(c, consumer, modules, f, p, i)
  {
    forall v ensures v in FileViolations(c, consumer, modules, f) <==>
        DeepBreach(c, consumer, modules, f, v) || SurfaceBreach(c, consumer, modules, f, v)
    {
      DeepViolationsAre(c, consumer, modules, f.imports, v);
      SurfaceViolationsAre(c, modules, Source(consumer, f), References(f.syntax), v);
      DeepMeans(c, consumer, modules, f, v);
      SurfaceMeans(c, modules, Source(consumer, f), v);
    }
    forall p, i ensures Uses(c, consumer, modules, f, p, i) <==> NamesPort(c, consumer, modules, f, p, i) {
      UsesMeans(c, consumer, modules, f, p, i);
    }
  }

  method InspectFile(c: Contract, f: File, consumer: string, modules: seq<string>)
      returns (r: Result<(seq<Violation>, Used), ParseFailure>)
    ensures r.Err? <==> !f.parses
    ensures r.Err? ==> r.error == ParseFailure(f.path)
    ensures r.Ok? ==> r.value.0 == FileViolations(c, consumer, modules, f)
    ensures r.Ok? ==> forall v :: v in r.value.0 <==>
                        DeepBreach(c, consumer, modules, f, v) || SurfaceBreach(c, consumer, modules, f, v)
    ensures r.Ok? ==> forall p, i :: Marked(r.value.1, p, i) <==> NamesPort(c, consumer, modules, f, p, i)
  {
    if !f.parses {
      return Err(ParseFailure(f.path));
    }
    FileMeans(c, consumer, modules, f);
    var violations: seq<Violation>, used: Used, providerFor: map<string, string> := [], map[], map[];
    for k := 0 to |f.imports|
      invariant violations == DeepViolations(c, consumer, modules, f.imports[..k])
      invariant providerFor == Aliases(c, consumer, modules, f.imports[..k])
    {
      var imp := f.imports[k];
      assert f.imports[..k + 1][..k] == f.imports[..k];
      if imp.path.None? || !(MODULE_PATH <= imp.path.value) {
        continue;
      }
      var rest := imp.path.value[|MODULE_PATH|..];
      var cut := Cut(rest);
      var top, sub := cut.0, cut.1;
      if top == consumer || top in c.vocabulary || top !in modules {
        continue;
      }
      if sub.Some? {
        violations := violations + [Violation(consumer, top, rest, imp.pos, Subpackage(sub.value))];
        continue;
      }
      var alias := top;
      if imp.name.Some? {
        alias := imp.name.value;
      }
      providerFor := providerFor[alias := top];
    }
    assert f.imports[..|f.imports|] == f.imports;
    if |providerFor| == 0 {
      NoAliasNoReach(c, consumer, References(f.syntax));
      return Ok((violations, used));
    }
    var surface, marked := InspectReferences(c, consumer, providerFor, References(f.syntax));
    return Ok((violations + surface, marked));
  }

  // The walk's callback over every selector with a bare base.
  method InspectReferences(c: Contract, consumer: string, providerFor: map<string, string>, refs: seq<Reference>)
      returns (violations: seq<Violation>, used: Used)
    ensures violations == SurfaceViolations(c, consumer, providerFor, refs)
    ensures forall p, i :: Marked(used, p, i) <==> UsedAmong(c, providerFor, refs, p, i)
  {
    violations, used := [], map[];
    for k := 0 to |refs|
      invariant violations == SurfaceViolations(c, consumer, providerFor, refs[..k])
      invariant forall p, i :: Marked(used, p, i) <==> UsedAmong(c, providerFor, refs[..k], p, i)
    {
      var sel := refs[k];
      assert refs[..k + 1] == refs[..k] + [sel];
      assert refs[..k + 1][..k] == refs[..k];
      UsedOneMore(c, providerFor, refs[..k], sel);
      if sel.base !in providerFor {
        continue;
      }
      var provider := providerFor[sel.base];
      if sel.sel in PortsOf(c, provider) {
        used := Mark(used, provider, sel.sel);
        continue;
      }
      violations := violations + [Violation(consumer, provider, sel.sel, sel.pos, Undeclared)];
    }
    assert refs[..|refs|] == refs;
  }

  lemma {:induction false} NoAliasNoReach(c: Contract, consumer: string, refs: seq<Reference>)
    ensures SurfaceViolations(c, consumer, map[], refs) == []
  {
    if refs != [] {
      NoAliasNoReach(c, consumer, refs[..|refs| - 1]);
    }
  }

  // ----- the whole tree -----

  predicate IsModule(c: Contract, e: Entry) {
    e.name !in c.vocabulary && e.hasGo
  }

  predicate ByName(a: Entry, b: Entry) {
    Text.AtMost(a.name, b.name)
  }

  // moduleNames, with the directories it names.
  function Modules(c: Contract, entries: seq<Entry>): seq<Entry> {
    StableSort(ByName, Filter((e: Entry) => IsModule(c, e), entries))
  }

  function NamesOf(entries: seq<Entry>): seq<string> {
    Map((e: Entry) => e.name, entries)
  }

  // A source file together with the module it belongs to.
  datatype Source = Source(consumer: string, file: File)

  function SourcesOf(e: Entry): seq<Source> {
    Map((f: File) => Source(e.name, f), Filter(IsSource, e.files))
  }

  function Sources(modules: seq<Entry>): seq<Source> {
    if modules == [] then [] else Sources(modules[..|modules| - 1]) + SourcesOf(modules[|modules| - 1])
  }

  function TreeViolations(c: Contract, names: seq<string>, sources: seq<Source>): seq<Violation> {
    if sources == [] then []
    else
      var last := sources[|sources| - 1];
      TreeViolations(c, names, sources[..|sources| - 1]) + FileViolations(c, last.consumer, names, last.file)
  }

  predicate UsedInTree(c: Contract, names: seq<string>, sources: seq<Source>, provider: string, ident: string) {
    exists s | s in sources :: Uses(c, s.consumer, names, s.file, provider, ident)
  }

  predicate ByPos(a: Violation, b: Violation) {
    Text.AtMost(a.pos, b.pos)
  }

  predicate StaleEntry(c: Contract, names: seq<string>, sources: seq<Source>, provider: string, ident: string) {
    ident in PortsOf(c, provider) && !UsedInTree(c, names, sources, provider, ident)
  }

  const TABLE_POS := "modulecontract.Ports"

  function StaleViolation(provider: string, ident: string): Violation {
    Violation("", provider, ident, TABLE_POS, Stale)
  }

  // What the walk has gathered after some sources.
  ghost predicate Gathered(c: Contract, names: seq<string>, sources: seq<Source>, violations: seq<Violation>,
      used: Used) {
    && violations == TreeViolations(c, names, sources)
    && (forall p, i :: Marked(used, p, i) <==> UsedInTree(c, names, sources, p, i))
    && (forall s | s in sources :: s.file.parses)
  }

  method MergeUsed(used: Used, more: Used) returns (out: Used)
    ensures forall p, i :: Marked(out, p, i) <==> Marked(used, p, i) || Marked(more, p, i)
  {
    out := used;
    var rest := more.Keys;
    while rest != {}
      invariant rest <= more.Keys
      invariant forall p, i :: Marked(out, p, i) <==> Marked(used, p, i) || (p !in rest && Marked(more, p, i))
      decreases rest
    {
      var provider :| provider in rest;
      out := out[provider := (if provider in out then out[provider] else {}) + more[provider]];
      rest := rest - {provider};
    }
  }

  lemma UsedInTreeOneMore(c: Contract, names: seq<string>, sources: seq<Source>, s: Source)
    ensures forall p, i :: UsedInTree(c, names, sources + [s], p, i) <==>
              UsedInTree(c, names, sources, p, i) || Uses(c, s.consumer, names, s.file, p, i)
  {
    assert s in sources + [s] && forall q | q in sources :: q in sources + [s];
  }

  method WalkModule(c: Contract, e: Entry, names: seq<string>, ghost before: seq<Source>,
                    violations: seq<Violation>, used: Used)
      returns (r: Result<(seq<Violation>, Used), ParseFailure>)
    requires Gathered(c, names, before, violations, used)
    ensures r.Ok? ==> Gathered(c, names, before + SourcesOf(e), r.value.0, r.value.1)
    ensures r.Err? <==> exists s :: s in SourcesOf(e) && !s.file.parses
    ensures r.Err? ==> exists s :: s in SourcesOf(e) && !s.file.parses && r.error == ParseFailure(s.file.path)
  {
    var vs, us := violations, used;
    var files := Filter(IsSource, e.files);
    ghost var sources := SourcesOf(e);
    assert before + sources[..0] == before;
    for k := 0 to |files|
      invariant Gathered(c, names, before + sources[..k], vs, us)
    {
      var inspected := InspectFile(c, files[k], e.name, names);
      assert sources[k] == Source(e.name, files[k]) && sources[k] in sources;
      if inspected.Err? {
        return Err(inspected.error);
      }
      ghost var s := sources[k];
      assert before + sources[..k + 1] == before + sources[..k] + [s];
      FileMeans(c, e.name, names, files[k]);
      UsedInTreeOneMore(c, names, before + sources[..k], s);
      assert (before + sources[..k] + [s])[..|before| + k] == before + sources[..k];
      vs := vs + inspected.value.0;
      us := MergeUsed(us, inspected.value.1);
    }
    assert sources[..|sources|] == sources;
    assert forall s | s in sources :: s in before + sources;
    return Ok((vs, us));
  }

  method StaleDeclarations(c: Contract, used: Used) returns (out: seq<Violation>)
    ensures forall v :: v in out <==>
              exists p, i :: i in PortsOf(c, p) && !Marked(used, p, i) && v == StaleViolation(p, i)
  {
    var providers := SortedProviders(c);
    out := [];
    for k := 0 to |providers|
      invariant forall v :: v in out <==>
                exists j, i :: 0 <= j < k && i in PortsOf(c, providers[j]) && !Marked(used, providers[j], i) &&
                               v == StaleViolation(providers[j], i)
    {
      var provider := providers[k];
      assert provider in providers;
      var idents := c.ports[provider];
      ghost var was := out;
      for l := 0 to |idents|
        invariant forall v :: v in out <==>
                  v in was ||
                  exists i :: i in idents[..l] && !Marked(used, provider, i) && v == StaleViolation(provider, i)
      {
        assert idents[..l + 1] == idents[..l] + [idents[l]];
        if !(provider in used && idents[l] in used[provider]) {
          out := out + [StaleViolation(provider, idents[l])];
        }
      }
      assert idents[..|idents|] == idents;
    }
    forall v ensures v in out <==>
        exists p, i :: i in PortsOf(c, p) && !Marked(used, p, i) && v == StaleViolation(p, i)
    {
      if p, i :| i in PortsOf(c, p) && !Marked(used, p, i) && v == StaleViolation(p, i) {
        assert p in providers;
        var j :| 0 <= j < |providers| && providers[j] == p;
      }
    }
  }

  method SortedProviders(c: Contract) returns (providers: seq<string>)
    ensures forall p :: p in providers <==> p in c.ports
  {
    var names: seq<string> := [];
    var rest := c.ports.Keys;
    while rest != {}
      invariant rest <= c.ports.Keys
      invariant forall n :: n in c.ports <==> n in names || n in rest
      decreases rest
    {
      var n :| n in rest;
      names, rest := names + [n], rest - {n};
    }
    providers := StableSort(Text.AtMost, names);
    forall p ensures p in providers <==> p in c.ports {
      StableSortMember(Text.AtMost, names, p);
    }
  }

  // What the walk finds.
  ghost predicate Found(c: Contract, names: seq<string>, sources: seq<Source>, v: Violation) {
    || (exists s, imp :: s in sources && imp in s.file.imports && DeepImport(c, s.consumer, names, imp) &&
                         v == DeepViolation(c, s.consumer, names, imp))
    || (exists s, r :: s in sources && r in References(s.file.syntax) && SurfaceFound(c, names, s, r, v))
    || (exists p, i :: StaleEntry(c, names, sources, p, i) && v == StaleViolation(p, i))
  }

  ghost predicate SurfaceFound(c: Contract, names: seq<string>, s: Source, r: Reference, v: Violation) {
    var aliases := Aliases(c, s.consumer, names, s.file.imports);
    Reaches(aliases, r) && !Permitted(c, aliases, r) &&
      v == Violation(s.consumer, aliases[r.base], r.sel, r.pos, Undeclared)
  }

  lemma {:induction false} DeepViolationsAre(c: Contract, consumer: string, names: seq<string>, imports: seq<Import>,
      v: Violation)
    ensures v in DeepViolations(c, consumer, names, imports) <==>
            exists imp :: imp in imports && DeepImport(c, consumer, names, imp) &&
              v == DeepViolation(c, consumer, names, imp)
  {
    if imports != [] {
      var front, last := imports[..|imports| - 1], imports[|imports| - 1];
      DeepViolationsAre(c, consumer, names, front, v);
      assert imports == front + [last];
      assert last in imports && forall i | i in front :: i in imports;
    }
  }

  lemma {:induction false} SurfaceViolationsAre(c: Contract, names: seq<string>, s: Source, refs: seq<Reference>,
      v: Violation)
    ensures v in SurfaceViolations(c, s.consumer, Aliases(c, s.consumer, names, s.file.imports), refs) <==>
            exists r :: r in refs && SurfaceFound(c, names, s, r, v)
  {
    if refs != [] {
      var front, last := refs[..|refs| - 1], refs[|refs| - 1];
      SurfaceViolationsAre(c, names, s, front, v);
      assert refs == front + [last];
      assert last in refs && forall r | r in front :: r in refs;
    }
  }

  ghost predicate SourceFound(c: Contract, names: seq<string>, s: Source, v: Violation) {
    || (exists imp :: imp in s.file.imports && DeepImport(c, s.consumer, names, imp) &&
         v == DeepViolation(c, s.consumer, names, imp))
    || (exists r :: r in References(s.file.syntax) && SurfaceFound(c, names, s, r, v))
  }

  lemma {:induction false} TreeViolationsAre(c: Contract, names: seq<string>, sources: seq<Source>, v: Violation)
    ensures v in TreeViolations(c, names, sources) <==> exists s :: s in sources && SourceFound(c, names, s, v)
  {
    if sources != [] {
      var front, last := sources[..|sources| - 1], sources[|sources| - 1];
      TreeViolationsAre(c, names, front, v);
      DeepViolationsAre(c, last.consumer, names, last.file.imports, v);
      SurfaceViolationsAre(c, names, last, References(last.file.syntax), v);
      assert sources == front + [last];
      assert last in sources && forall s | s in front :: s in sources;
    }
  }

  // Every breach is reported and nothing else is, ordered by position.
  method Verify(c: Contract, entries: seq<Entry>) returns (r: Result<seq<Violation>, ParseFailure>)
    ensures var modules := Modules(c, entries);
            && (r.Err? <==> exists s :: s in Sources(modules) && !s.file.parses)
            && (r.Ok? ==> forall i, j | 0 <= i < j < |r.value| :: Text.AtMost(r.value[i].pos, r.value[j].pos))
            && (r.Err? ==> exists s :: s in Sources(modules) && !s.file.parses && r.error == ParseFailure(s.file.path))
            && (r.Ok? ==> forall v :: v in r.value <==> Breach(c, NamesOf(modules), Sources(modules), v))
  {
    var modules := Modules(c, entries);
    var names := NamesOf(modules);
    var violations: seq<Violation>, used: Used := [], map[];
    for k := 0 to |modules|
      invariant Gathered(c, names, Sources(modules[..k]), violations, used)
    {
      assert modules[..k + 1][..k] == modules[..k];
      assert Sources(modules[..k + 1]) == Sources(modules[..k]) + SourcesOf(modules[k]);
      var walked := WalkModule(c, modules[k], names, Sources(modules[..k]), violations, used);
      if walked.Err? {
        SourcesOfMember(modules, k);
        return Err(walked.error);
      }
      violations, used := walked.value.0, walked.value.1;
    }
    assert modules[..|modules|] == modules;
    var stale := StaleDeclarations(c, used);
    ghost var found := violations;
    violations := StableSort(ByPos, violations + stale);
    ByPosSorts(found + stale);
    forall v ensures v in violations <==> Breach(c, names, Sources(modules), v) {
      FoundAreBreaches(c, names, Sources(modules), v);
      StableSortMember(ByPos, found + stale, v);
      TreeViolationsAre(c, names, Sources(modules), v);
      FoundSplits(c, names, Sources(modules), v);
    }
    return Ok(violations);
  }

  lemma FoundSplits(c: Contract, names: seq<string>, sources: seq<Source>, v: Violation)
    ensures Found(c, names, sources, v) <==>
            || (exists s :: s in sources && SourceFound(c, names, s, v))
            || (exists p, i :: StaleEntry(c, names, sources, p, i) && v == StaleViolation(p, i))
  {
  }

  lemma {:induction false} SourcesOfMember(modules: seq<Entry>, k: nat)
    requires k < |modules|
    ensures forall s | s in SourcesOf(modules[k]) :: s in Sources(modules)
  {
    var front := modules[..|modules| - 1];
    if k < |front| {
      SourcesOfMember(front, k);
    }
  }

  lemma ByPosSorts(vs: seq<Violation>)
    ensures Sorted(ByPos, StableSort(ByPos, vs))
  {
    AtMostIsPreorder();
    forall x: Violation, y: Violation ensures ByPos(x, y) || ByPos(y, x) {
      assert Text.AtMost(x.pos, y.pos) || Text.AtMost(y.pos, x.pos);
    }
    StableSortSorts(ByPos, vs);
  }

  lemma SurfaceMeans(c: Contract, names: seq<string>, s: Source, v: Violation)
    ensures SurfaceBreach(c, s.consumer, names, s.file, v) <==>
            exists r :: r in References(s.file.syntax) && SurfaceFound(c, names, s, r, v)
  {
    var aliases := Aliases(c, s.consumer, names, s.file.imports);
    if r, p :| Mentions(s.file.syntax, r) && StandsFor(c, s.consumer, names, s.file.imports, r.base, p) &&
               !Port(c, p, r.sel) && v == Violation(s.consumer, p, r.sel, r.pos, Undeclared) {
      ReferencesAre(s.file.syntax, r);
      AliasesMean(c, s.consumer, names, s.file.imports, r.base, p);
    }
    if r :| r in References(s.file.syntax) && SurfaceFound(c, names, s, r, v) {
      ReferencesAre(s.file.syntax, r);
      AliasesMean(c, s.consumer, names, s.file.imports, r.base, aliases[r.base]);
    }
  }

  // The breaches of a tree, stated without the walk.
  ghost predicate Breach(c: Contract, names: seq<string>, sources: seq<Source>, v: Violation) {
    || (exists s :: s in sources && DeepBreach(c, s.consumer, names, s.file, v))
    || (exists s :: s in sources && SurfaceBreach(c, s.consumer, names, s.file, v))
    || (exists p, i :: Port(c, p, i) && !PortNamed(c, names, sources, p, i) &&
          v == Violation("", p, i, "modulecontract.Ports", Stale))
  }

  ghost predicate PortNamed(c: Contract, names: seq<string>, sources: seq<Source>, provider: string, ident: string) {
    exists s :: s in sources && NamesPort(c, s.consumer, names, s.file, provider, ident)
  }

  lemma StaleMeans(c: Contract, names: seq<string>, sources: seq<Source>, p: string, i: string)
    ensures StaleEntry(c, names, sources, p, i) <==> Port(c, p, i) && !PortNamed(c, names, sources, p, i)
  {
    forall s: Source
      ensures Uses(c, s.consumer, names, s.file, p, i) <==> NamesPort(c, s.consumer, names, s.file, p, i) {
      UsesMeans(c, s.consumer, names, s.file, p, i);
    }
  }

  // The walk finds every breach and nothing else.
  lemma FoundAreBreaches(c: Contract, names: seq<string>, sources: seq<Source>, v: Violation)
    ensures Found(c, names, sources, v) <==> Breach(c, names, sources, v)
  {
    FoundSplits(c, names, sources, v);
    forall s: Source
      ensures SourceFound(c, names, s, v) <==>
              DeepBreach(c, s.consumer, names, s.file, v) || SurfaceBreach(c, s.consumer, names, s.file, v)
    {
      DeepMeans(c, s.consumer, names, s.file, v);
      SurfaceMeans(c, names, s, v);
    }
    forall p, i ensures StaleEntry(c, names, sources, p, i) <==> Port(c, p, i) && !PortNamed(c, names, sources, p, i) {
      StaleMeans(c, names, sources, p, i);
    }
  }

  // No source imports a sibling's subpackage.
  ghost predicate NoDeepImport(c: Contract, names: seq<string>, s: Source) {
    forall imp, top, sub | imp in s.file.imports :: !NamesSibling(c, s.consumer, names, imp, top, Some(sub))
  }

  // Every selector whose bare base stands for a sibling names a port of it.
  ghost predicate OnlyPortsReached(c: Contract, names: seq<string>, s: Source) {
    forall r, p | Mentions(s.file.syntax, r) && StandsFor(c, s.consumer, names, s.file.imports, r.base, p) ::
      Port(c, p, r.sel)
  }

  // There is no breach exactly when no source file imports a sibling's
  // subpackage, every selector through a sibling's name is a port it declares,
  // and every declared port is named by some sibling.
  lemma CleanMeansContractHolds(c: Contract, names: seq<string>, sources: seq<Source>)
    ensures (forall v :: !Breach(c, names, sources, v)) <==>
            && (forall s | s in sources :: NoDeepImport(c, names, s))
            && (forall s | s in sources :: OnlyPortsReached(c, names, s))
            && (forall p, i | Port(c, p, i) :: PortNamed(c, names, sources, p, i))
  {
    if s :| s in sources && !NoDeepImport(c, names, s) {
      var imp, top, sub :| imp in s.file.imports && NamesSibling(c, s.consumer, names, imp, top, Some(sub));
      var v := Violation(s.consumer, top, top + ['/'] + sub, imp.pos, Subpackage(sub));
      assert DeepBreach(c, s.consumer, names, s.file, v);
      assert Breach(c, names, sources, v);
    } else if s :| s in sources && !OnlyPortsReached(c, names, s) {
      var r, p :| Mentions(s.file.syntax, r) && StandsFor(c, s.consumer, names, s.file.imports, r.base, p) &&
                  !Port(c, p, r.sel);
      var v := Violation(s.consumer, p, r.sel, r.pos, Undeclared);
      assert SurfaceBreach(c, s.consumer, names, s.file, v);
      assert Breach(c, names, sources, v);
    } else if p, i :| Port(c, p, i) && !PortNamed(c, names, sources, p, i) {
      assert Breach(c, names, sources, Violation("", p, i, "modulecontract.Ports", Stale));
    } else {
      forall s, v | s in sources
        ensures !DeepBreach(c, s.consumer, names, s.file, v) && !SurfaceBreach(c, s.consumer, names, s.file, v)
      {
        assert NoDeepImport(c, names, s) && OnlyPortsReached(c, names, s);
      }
    }
  }

  // ----- which modules and files are looked at -----

  ghost predicate EndsIn(s: string, suffix: string) {
    exists front: string :: s == front + suffix
  }

  lemma SuffixMeans(s: string, suffix: string)
    ensures HasSuffix(s, suffix) <==> EndsIn(s, suffix)
  {
    if HasSuffix(s, suffix) {
      assert s == s[..|s| - |suffix|] + suffix;
    }
  }

  // The modules are the directories with Go files that are not shared vocabulary;
  // the sources are their Go files but for tests.
  lemma TreeMeans(c: Contract, entries: seq<Entry>, name: string, s: Source)
    ensures name in NamesOf(Modules(c, entries)) <==>
            exists e :: e in entries && e.hasGo && e.name !in c.vocabulary && e.name == name
    ensures s in Sources(Modules(c, entries)) <==>
            exists e :: e in entries && e.hasGo && e.name !in c.vocabulary && e.name == s.consumer &&
              s.file in e.files && EndsIn(s.file.path, ".go") && !EndsIn(s.file.path, "_test.go")
  {
    var modules := Modules(c, entries);
    forall e: Entry ensures e in modules <==> e in entries && e.hasGo && e.name !in c.vocabulary {
      StableSortMember(ByName, Filter((e: Entry) => IsModule(c, e), entries), e);
      FilterMember((e: Entry) => IsModule(c, e), entries, e);
    }
    NamesAre(modules, name);
    SourcesAre(modules, s);
    SuffixMeans(s.file.path, ".go");
    SuffixMeans(s.file.path, "_test.go");
  }

  // The modules are walked in the order of their names.
  lemma ModulesAreSorted(c: Contract, entries: seq<Entry>)
    ensures var modules := Modules(c, entries);
            forall i, j | 0 <= i < j < |modules| :: Text.AtMost(modules[i].name, modules[j].name)
  {
    AtMostIsPreorder();
    forall x: Entry, y: Entry ensures ByName(x, y) || ByName(y, x) {
      assert Text.AtMost(x.name, y.name) || Text.AtMost(y.name, x.name);
    }
    StableSortSorts(ByName, Filter((e: Entry) => IsModule(c, e), entries));
  }

  lemma NamesAre(modules: seq<Entry>, name: string)
    ensures name in NamesOf(modules) <==> exists e: Entry :: e in modules && e.name == name
  {
    forall i | 0 <= i < |modules| ensures NamesOf(modules)[i] == modules[i].name && modules[i] in modules {
    }
    if e :| e in modules && e.name == name {
      var i :| 0 <= i < |modules| && modules[i] == e;
      assert NamesOf(modules)[i] == name;
    }
  }

  lemma {:induction false} SourcesAre(modules: seq<Entry>, s: Source)
    ensures s in Sources(modules) <==>
            exists e: Entry :: e in modules && e.name == s.consumer && s.file in e.files && IsSource(s.file)
  {
    if modules != [] {
      var front, last := modules[..|modules| - 1], modules[|modules| - 1];
      assert modules == front + [last];
      SourcesAre(front, s);
      FilterMember(IsSource, last.files, s.file);
      var files := Filter(IsSource, last.files);
      assert s in SourcesOf(last) <==> s.consumer == last.name && s.file in files by {
        assert |SourcesOf(last)| == |files|;
        assert forall k | 0 <= k < |files| :: SourcesOf(last)[k] == Source(last.name, files[k]);
      }
    }
  }

  // ----- what a dot import hides -----

  // The import puts the sibling's names into the file's own scope.
  predicate DotImport(c: Contract, consumer: string, modules: seq<string>, imp: Import, provider: string) {
    NamesSibling(c, consumer, modules, imp, provider, None) && imp.name == Some(".")
  }

  // The identifier names what a dot-imported sibling exports.
  ghost predicate BareReach(c: Contract, consumer: string, modules: seq<string>, imports: seq<Import>,
                            exports: map<string, set<string>>, provider: string, ident: string) {
    && (exists imp | imp in imports :: DotImport(c, consumer, modules, imp, provider))
    && provider in exports && ident in exports[provider]
  }

  // The surface rule for names written without a package.
  ghost predicate BareNamesArePorts(c: Contract, consumer: string, modules: seq<string>, imports: seq<Import>,
                                    syntax: Node, exports: map<string, set<string>>) {
    forall p, i | Subterm(Ident(i), syntax) && BareReach(c, consumer, modules, imports, exports, p, i) :: Port(c, p, i)
  }

  ghost predicate SelectorsArePorts(c: Contract, consumer: string, modules: seq<string>, imports: seq<Import>,
                                    syntax: Node) {
    forall r, p | Mentions(syntax, r) && StandsFor(c, consumer, modules, imports, r.base, p) :: Port(c, p, r.sel)
  }

  // Some name is no port.
  lemma {:induction false} OtherName(ports: seq<string>) returns (name: string)
    ensures name != [] && name !in ports && forall p | p in ports :: |p| < |name|
  {
    if ports == [] {
      name := "x";
    } else {
      var shorter := OtherName(ports[1..]);
      name := shorter + ports[0];
      assert ports == [ports[0]] + ports[1..];
    }
  }

  // What the selectors show covers every way to name a sibling's identifier, for
  // all code under these imports, exactly when none of them is a dot import of a
  // sibling: the alias "." is the base of no selector.
  lemma DotImportsEscapeExactly(c: Contract, consumer: string, modules: seq<string>, imports: seq<Import>)
    ensures (forall syntax: Node, exports: map<string, set<string>> ::
               SelectorsArePorts(c, consumer, modules, imports, syntax) ==>
                 BareNamesArePorts(c, consumer, modules, imports, syntax, exports))
            <==> forall imp, p | imp in imports ::
                   !(NamesSibling(c, consumer, modules, imp, p, None) && imp.name == Some("."))
  {
    assert forall imp, p :: DotImport(c, consumer, modules, imp, p) <==>
                            NamesSibling(c, consumer, modules, imp, p, None) && imp.name == Some(".");
    if imp, p :| imp in imports && DotImport(c, consumer, modules, imp, p) {
      var name := OtherName(PortsOf(c, p));
      var syntax, exports := Ident(name), map[p := {name}];
      assert Subterm(Ident(name), syntax) && forall r :: !Mentions(syntax, r);
      assert BareReach(c, consumer, modules, imports, exports, p, name);
      assert SelectorsArePorts(c, consumer, modules, imports, syntax);
      assert !BareNamesArePorts(c, consumer, modules, imports, syntax, exports);
    }
  }
}
