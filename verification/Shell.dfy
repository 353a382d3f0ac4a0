/** pkg/admin/shell.go: the shell's registrations and the slices they hand over. */
module Shell {
  import opened Sequences
  import opened Sidebar
  import Text

  // A Go slice: len elements of its array from start on, and cap places that
  // append may fill before it needs another array.
  datatype Slice = Slice(arr: array<Item>, start: nat, len: nat, cap: nat)

  datatype Section = Section(owner: string, title: string, order: int, items: Slice)

  ghost predicate Fits(s: Slice) {
    s.len <= s.cap && s.start + s.cap <= s.arr.Length
  }

  ghost function Contents(s: Slice): seq<Item>
    requires Fits(s)
    reads s.arr
  {
    s.arr[s.start..s.start + s.len]
  }

  ghost function ViewOf(s: Section): Group
    requires Fits(s.items)
    reads s.items.arr
  {
    Group(s.owner, s.title, s.order, Contents(s.items))
  }

  // The sections read, in order, as these groups.
  ghost predicate Shows(sections: seq<Section>, groups: seq<Group>)
    reads set i | 0 <= i < |sections| :: sections[i].items.arr
  {
    && |sections| == |groups|
    && forall i | 0 <= i < |sections| :: Fits(sections[i].items) && ViewOf(sections[i]) == groups[i]
  }

  ghost function Views(sections: seq<Section>): (groups: seq<Group>)
    requires forall i | 0 <= i < |sections| :: Fits(sections[i].items)
    reads set i | 0 <= i < |sections| :: sections[i].items.arr
    ensures Shows(sections, groups)
  {
    seq(|sections|, i requires 0 <= i < |sections| && Fits(sections[i].items)
                      reads set j | 0 <= j < |sections| :: sections[j].items.arr => ViewOf(sections[i]))
  }

  predicate Precedes(a: Section, b: Section) {
    a.order < b.order || (a.order == b.order && Text.AtMost(a.title, b.title))
  }

  // Nothing but the spare places of a slice differs.
  twostate predicate OnlySpareWritten(s: Slice)
    requires Fits(s)
    reads s.arr
  {
    forall i | 0 <= i < s.arr.Length && !(s.start + s.len <= i < s.start + s.cap) :: s.arr[i] == old(s.arr[i])
  }

  // A new array of some sufficient size that begins with what the slice shows.
  method Grow(s: Slice, total: nat) returns (r: Slice)
    requires Fits(s) && s.len <= total
    ensures Fits(r) && fresh(r.arr) && r.len == s.len && total <= r.cap && Contents(r) == Contents(s)
  {
    var size: nat :| total <= size;
    var target := new Item[size](_ => Item("", ""));
    var k := 0;
    while k < s.len
      invariant 0 <= k <= s.len
      invariant target[..k] == s.arr[s.start..s.start + k]
    {
      target[k] := s.arr[s.start + k];
      k := k + 1;
    }
    r := Slice(target, 0, s.len, size);
  }

  // Writes the elements after those the slice shows.
  method Extend(s: Slice, more: seq<Item>) returns (r: Slice)
    requires Fits(s) && s.len + |more| <= s.cap
    modifies s.arr
    ensures r == s.(len := s.len + |more|) && Contents(r) == old(Contents(s)) + more
    ensures OnlySpareWritten(s)
  {
    var at, i := s.start + s.len, 0;
    while i < |more|
      invariant 0 <= i <= |more|
      invariant forall j | 0 <= j < i :: s.arr[at + j] == more[j]
      invariant OnlySpareWritten(s)
    {
      s.arr[at + i] := more[i];
      i := i + 1;
    }
    r := s.(len := s.len + |more|);
    ghost var shown := old(Contents(s)) + more;
    assert |Contents(r)| == |shown| && forall j | 0 <= j < |shown| :: Contents(r)[j] == shown[j];
  }

  // append(dst, src...): in place when the spare capacity suffices, else in a
  // new array; the two slices may share one.
  method Append(dst: Slice, src: Slice) returns (r: Slice)
    requires Fits(dst) && Fits(src)
    modifies dst.arr
    ensures Fits(r) && Contents(r) == old(Contents(dst)) + old(Contents(src))
    ensures r.arr == dst.arr || fresh(r.arr)
    ensures OnlySpareWritten(dst)
  {
    var more := src.arr[src.start..src.start + src.len];
    var target := dst;
    if dst.len + src.len > dst.cap {
      target := Grow(dst, dst.len + src.len);
    }
    r := Extend(target, more);
  }

  lemma MergeIntoKnown(groups: seq<Group>, m: Group, at: nat)
    requires DistinctLabels(groups) && at < |groups| && groups[at].title == m.title
    ensures MergeOne(groups, m) == groups[at := groups[at].(items := groups[at].items + m.items)]
  {
    assert groups[at] in groups;
    forall i | 0 <= i < |groups| && i != at ensures groups[i].title != m.title {
      if i < at {
        assert groups[i].title != groups[at].title;
      }
    }
  }

  // Sorting the sections sorts what they show.
  lemma SortShows(sections: seq<Section>, groups: seq<Group>)
    requires Shows(sections, groups)
    ensures Shows(StableSort(Precedes, sections), StableSort(NotAfter, groups))
  {
    var pairs := seq(|sections|, i requires 0 <= i < |sections| && |sections| == |groups| => (sections[i], groups[i]));
    var first, second := (p: (Section, Group)) => p.0, (p: (Section, Group)) => p.1;
    var le := (p: (Section, Group), q: (Section, Group)) => NotAfter(p.1, q.1);
    var sorted := StableSort(le, pairs);
    assert Map(first, pairs) == sections && Map(second, pairs) == groups;
    forall p | p in pairs ensures Fits(p.0.items) && ViewOf(p.0) == p.1 {
    }
    MapStableSort(first, le, Precedes, pairs);
    MapStableSort(second, le, NotAfter, pairs);
    forall i | 0 <= i < |sorted| ensures Fits(sorted[i].0.items) && ViewOf(sorted[i].0) == sorted[i].1 {
      StableSortMember(le, pairs, sorted[i]);
    }
    assert StableSort(Precedes, sections) == Map(first, sorted);
    assert StableSort(NotAfter, groups) == Map(second, sorted);
  }

  datatype RegisterError = ModuleRequired | LabelRequired | AlreadyRegistered

  datatype Resource = Resource(owner: string, entity: string)
  datatype PageEntry = PageEntry(owner: string, path: string)
  datatype Summary = Summary(owner: string, resources: seq<Resource>, pages: seq<PageEntry>)

  predicate Registered(id: string, rs: seq<Resource>, ps: seq<PageEntry>) {
    (exists r | r in rs :: r.owner == id) || (exists p | p in ps :: p.owner == id)
  }

  // All that one module registered, in registration order.
  function SummaryOf(id: string, rs: seq<Resource>, ps: seq<PageEntry>): Summary {
    Summary(id, Filter((r: Resource) => r.owner == id, rs), Filter((p: PageEntry) => p.owner == id, ps))
  }

  // It holds what that module registered, as often as it did, and nothing of another.
  lemma SummaryHolds(id: string, rs: seq<Resource>, ps: seq<PageEntry>)
    ensures SummaryOf(id, rs, ps).owner == id
    ensures forall r :: multiset(SummaryOf(id, rs, ps).resources)[r] == if r.owner == id then multiset(rs)[r] else 0
    ensures forall p :: multiset(SummaryOf(id, rs, ps).pages)[p] == if p.owner == id then multiset(ps)[p] else 0
  {
    var ownResource, ownPage := (r: Resource) => r.owner == id, (p: PageEntry) => p.owner == id;
    FilterAgree(ownResource, (r: Resource) => r.owner == id, rs);
    FilterAgree(ownPage, (p: PageEntry) => p.owner == id, ps);
    forall r: Resource
      ensures multiset(SummaryOf(id, rs, ps).resources)[r] == if r.owner == id then multiset(rs)[r] else 0
    {
      FilterCounts(ownResource, rs, r);
    }
    forall p: PageEntry
      ensures multiset(SummaryOf(id, rs, ps).pages)[p] == if p.owner == id then multiset(ps)[p] else 0
    {
      FilterCounts(ownPage, ps, p);
    }
  }

  lemma SummaryGrows(rs: seq<Resource>, ps: seq<PageEntry>, r: Resource)
    ensures forall id :: Registered(id, rs + [r], ps) <==> Registered(id, rs, ps) || id == r.owner
    ensures forall id ::
              SummaryOf(id, rs + [r], ps).resources ==
              SummaryOf(id, rs, ps).resources + (if id == r.owner then [r] else [])
  {
    forall id
      ensures SummaryOf(id, rs + [r], ps).resources == SummaryOf(id, rs, ps).resources +
              (if id == r.owner then [r] else [])
    {
      FilterAppend((q: Resource) => q.owner == id, rs, [r]);
      FilterAgree((q: Resource) => q.owner == id, (r: Resource) => r.owner == id, rs);
      FilterAgree((q: Resource) => q.owner == id, (r: Resource) => r.owner == id, rs + [r]);
    }
    forall id ensures Registered(id, rs + [r], ps) <==> Registered(id, rs, ps) || id == r.owner {
      assert r in rs + [r] && forall q | q in rs :: q in rs + [r];
    }
  }

  lemma SummaryGrowsByPage(rs: seq<Resource>, ps: seq<PageEntry>, p: PageEntry)
    ensures forall id :: Registered(id, rs, ps + [p]) <==> Registered(id, rs, ps) || id == p.owner
    ensures forall id ::
              SummaryOf(id, rs, ps + [p]).pages ==
              SummaryOf(id, rs, ps).pages + (if id == p.owner then [p] else [])
  {
    forall id
      ensures SummaryOf(id, rs, ps + [p]).pages == SummaryOf(id, rs, ps).pages +
              (if id == p.owner then [p] else [])
    {
      FilterAppend((q: PageEntry) => q.owner == id, ps, [p]);
      FilterAgree((q: PageEntry) => q.owner == id, (p: PageEntry) => p.owner == id, ps);
      FilterAgree((q: PageEntry) => q.owner == id, (p: PageEntry) => p.owner == id, ps + [p]);
    }
    forall id ensures Registered(id, rs, ps + [p]) <==> Registered(id, rs, ps) || id == p.owner {
      assert p in ps + [p] && forall q | q in ps :: q in ps + [p];
    }
  }

  lemma SummaryOfNobody(id: string, rs: seq<Resource>, ps: seq<PageEntry>)
    requires !Registered(id, rs, ps)
    ensures SummaryOf(id, rs, ps) == Summary(id, [], [])
  {
    FilterNone((r: Resource) => r.owner == id, rs);
    FilterNone((p: PageEntry) => p.owner == id, ps);
  }

  // byId holds the summaries so far and order their ids, each once.
  ghost predicate Summarizes(byId: map<string, Summary>, order: seq<string>, rs: seq<Resource>, ps: seq<PageEntry>) {
    && NoDuplicates(order)
    && (forall id :: id in order <==> id in byId)
    && (forall id :: id in byId <==> Registered(id, rs, ps))
    && (forall id | id in byId :: byId[id] == SummaryOf(id, rs, ps))
  }

  method AddResources(rs: seq<Resource>) returns (byId: map<string, Summary>, order: seq<string>)
    ensures Summarizes(byId, order, rs, [])
  {
    byId, order := map[], [];
    var i := 0;
    while i < |rs|
      invariant 0 <= i <= |rs|
      invariant Summarizes(byId, order, rs[..i], [])
    {
      var r := rs[i];
      assert rs[..i + 1] == rs[..i] + [r];
      SummaryGrows(rs[..i], [], r);
      if r.owner !in byId {
        SummaryOfNobody(r.owner, rs[..i], []);
        byId, order := byId[r.owner := Summary(r.owner, [], [])], order + [r.owner];
      }
      byId := byId[r.owner := byId[r.owner].(resources := byId[r.owner].resources + [r])];
      i := i + 1;
    }
    assert rs[..|rs|] == rs;
  }

  method AddPages(rs: seq<Resource>, ps: seq<PageEntry>, known: map<string, Summary>, ids: seq<string>)
      returns (byId: map<string, Summary>, order: seq<string>)
    requires Summarizes(known, ids, rs, [])
    ensures Summarizes(byId, order, rs, ps)
  {
    byId, order := known, ids;
    var i := 0;
    while i < |ps|
      invariant 0 <= i <= |ps|
      invariant Summarizes(byId, order, rs, ps[..i])
    {
      var p := ps[i];
      assert ps[..i + 1] == ps[..i] + [p];
      SummaryGrowsByPage(rs, ps[..i], p);
      if p.owner !in byId {
        SummaryOfNobody(p.owner, rs, ps[..i]);
        byId, order := byId[p.owner := Summary(p.owner, [], [])], order + [p.owner];
      }
      byId := byId[p.owner := byId[p.owner].(pages := byId[p.owner].pages + [p])];
      i := i + 1;
    }
    assert ps[..|ps|] == ps;
  }

  // The map finds each section by its label; no two sections share an array.
  predicate Indexed(out: seq<Section>, groupAt: map<string, nat>) {
    && (forall i, j | 0 <= i < j < |out| :: out[i].items.arr != out[j].items.arr)
    && (forall t | t in groupAt :: groupAt[t] < |out| && out[groupAt[t]].title == t)
    && (forall i | 0 <= i < |out| :: out[i].title in groupAt)
  }

  // out and the index map stand for these groups.
  ghost predicate Rail(out: seq<Section>, groupAt: map<string, nat>, groups: seq<Group>)
    reads set i | 0 <= i < |out| :: out[i].items.arr
  {
    Shows(out, groups) && Indexed(out, groupAt)
  }

  lemma ExtendedIsIndexed(out: seq<Section>, groupAt: map<string, nat>, at: nat, items: Slice)
    requires Indexed(out, groupAt) && at < |out|
    requires forall i | 0 <= i < |out| && i != at :: out[i].items.arr != items.arr
    ensures Indexed(out[at := out[at].(items := items)], groupAt)
  {
  }

  lemma OpenedIsIndexed(out: seq<Section>, groupAt: map<string, nat>, member: Section)
    requires Indexed(out, groupAt) && member.title !in groupAt
    requires forall i | 0 <= i < |out| :: out[i].items.arr != member.items.arr
    ensures Indexed(out + [member], groupAt[member.title := |out|])
  {
  }

  // The label has a group: its items grow.
  method ExtendGroup(out: seq<Section>, at: nat, member: Section, ghost groups: seq<Group>) returns (out': seq<Section>)
    requires Shows(out, groups) && DistinctLabels(groups) && at < |out| && out[at].title == member.title
    requires forall i, j | 0 <= i < j < |out| :: out[i].items.arr != out[j].items.arr
    requires Fits(member.items) && forall i | 0 <= i < |out| :: out[i].items.arr != member.items.arr
    modifies out[at].items.arr
    ensures Shows(out', MergeOne(groups, old(ViewOf(member))))
    ensures |out'| == |out| && out' == out[at := out[at].(items := out'[at].items)]
    ensures fresh(out'[at].items.arr) || out'[at].items.arr == out[at].items.arr
  {
    MergeIntoKnown(groups, ViewOf(member), at);
    var items := Append(out[at].items, member.items);
    out' := out[at := out[at].(items := items)];
  }

  // The label is new: its group opens with a copy of the items.
  method OpenGroup(out: seq<Section>, member: Section, ghost groups: seq<Group>) returns (out': seq<Section>)
    requires Shows(out, groups) && Fits(member.items) && forall i | 0 <= i < |out| :: out[i].title != member.title
    ensures Shows(out', MergeOne(groups, ViewOf(member)))
    ensures |out'| == |out| + 1 && out' == out + [member.(items := out'[|out|].items)]
    ensures fresh(out'[|out|].items.arr)
  {
    forall g | g in groups ensures g.title != member.title {
      var i :| 0 <= i < |groups| && groups[i] == g;
      assert ViewOf(out[i]) == g;
    }
    var none := new Item[0];
    var items := Append(Slice(none, 0, 0, 0), member.items);
    out' := out + [member.(items := items)];
  }

  predicate Within(out: seq<Section>, mine: set<array<Item>>) {
    forall i | 0 <= i < |out| :: out[i].items.arr in mine
  }

  // One pass of the merge loop. mine holds the arrays the merge has made.
  method MergeMember(out: seq<Section>, groupAt: map<string, nat>, member: Section, ghost groups: seq<Group>,
                     ghost mine: set<array<Item>>)
      returns (out': seq<Section>, groupAt': map<string, nat>, ghost mine': set<array<Item>>)
    requires Rail(out, groupAt, groups) && DistinctLabels(groups)
    requires Fits(member.items) && Within(out, mine) && member.items.arr !in mine
    modifies mine
    ensures Rail(out', groupAt', MergeOne(groups, old(ViewOf(member))))
    ensures Within(out', mine') && fresh(mine' - mine)
  {
    if member.title in groupAt {
      var at := groupAt[member.title];
      out' := ExtendGroup(out, at, member, groups);
      groupAt' := groupAt;
      mine' := mine + {out'[at].items.arr};
      ExtendedIsIndexed(out, groupAt, at, out'[at].items);
    } else {
      groupAt' := groupAt[member.title := |out|];
      out' := OpenGroup(out, member, groups);
      mine' := mine + {out'[|out|].items.arr};
      OpenedIsIndexed(out, groupAt, out'[|out|]);
    }
  }

  lemma MergeAllOneMore(views: seq<Group>, k: nat)
    requires k < |views|
    ensures MergeAll(views[..k + 1]) == MergeOne(MergeAll(views[..k]), views[k]) && DistinctLabels(MergeAll(views[..k]))
  {
    assert views[..k + 1][..k] == views[..k];
    MergeAllLabels(views[..k]);
  }

  method MergeMembers(members: seq<Section>, ghost views: seq<Group>) returns (out: seq<Section>)
    requires Shows(members, views)
    ensures Shows(out, MergeAll(views))
    ensures forall g | g in out :: fresh(g.items.arr)
  {
    var groupAt: map<string, nat> := map[];
    ghost var mine: set<array<Item>> := {};
    out := [];
    var k := 0;
    while k < |members|
      invariant 0 <= k <= |members|
      invariant Rail(out, groupAt, MergeAll(views[..k]))
      invariant Within(out, mine) && fresh(mine)
      invariant Shows(members, views)
    {
      MergeAllOneMore(views, k);
      out, groupAt, mine := MergeMember(out, groupAt, members[k], MergeAll(views[..k]), mine);
      k := k + 1;
    }
    assert views[..|members|] == views;
  }

  class AdminShell {
    var sidebar: seq<Section>
    var resources: seq<Resource>
    var pages: seq<PageEntry>

    ghost predicate Valid()
      reads this
    {
      && (forall i | 0 <= i < |sidebar| :: Fits(sidebar[i].items))
      && (forall i, j | 0 <= i < j < |sidebar| ::
           !(sidebar[i].owner == sidebar[j].owner && sidebar[i].title == sidebar[j].title))
    }

    constructor ()
      ensures Valid() && sidebar == [] && resources == [] && pages == []
    {
      sidebar, resources, pages := [], [], [];
    }

    method RegisterSidebarSection(section: Section) returns (err: Option<RegisterError>)
      requires Valid() && Fits(section.items)
      modifies this`sidebar
      ensures Valid()
      ensures err == if Text.Blank(section.owner) then Some(ModuleRequired)
                     else if Text.Blank(section.title) then Some(LabelRequired)
                     else if exists s | s in old(sidebar) :: s.owner == section.owner && s.title == section.title then
                       Some(AlreadyRegistered)
                     else None
      ensures sidebar == if err.Some? then old(sidebar) else old(sidebar) + [section]
    {
      if Text.Blank(section.owner) {
        return Some(ModuleRequired);
      }
      if Text.Blank(section.title) {
        return Some(LabelRequired);
      }
      var i := 0;
      while i < |sidebar|
        invariant 0 <= i <= |sidebar|
        invariant forall j | 0 <= j < i :: !(sidebar[j].owner == section.owner && sidebar[j].title == section.title)
      {
        if sidebar[i].owner == section.owner && sidebar[i].title == section.title {
          return Some(AlreadyRegistered);
        }
        i := i + 1;
      }
      sidebar := sidebar + [section];
      return None;
    }

    // The groups' arrays are all new and nothing allocated before is written, so
    // no slice a module registered changes.
    method SidebarSections() returns (out: seq<Section>)
      requires Valid()
      ensures Shows(out, Merged(old(Views(sidebar)))) && Views(sidebar) == old(Views(sidebar))
      ensures forall g | g in out :: fresh(g.items.arr)
    {
      var members := StableSort(Precedes, sidebar);
      ghost var shown := Views(sidebar);
      SortShows(sidebar, shown);
      out := MergeMembers(members, StableSort(NotAfter, shown));
    }

    // Every module that registered something, by id, with all it registered.
    method ModulesSummary() returns (out: seq<Summary>)
      ensures forall i, j | 0 <= i < j < |out| :: Text.Less(out[i].owner, out[j].owner)
      ensures forall id :: Registered(id, resources, pages) <==> exists m :: m in out && m.owner == id
      ensures forall m | m in out :: m == SummaryOf(m.owner, resources, pages)
    {
      var byId, order := AddResources(resources);
      byId, order := AddPages(resources, pages, byId, order);
      var ids := SortedIds(order);
      out := [];
      for k := 0 to |ids|
        invariant |out| == k && forall j | 0 <= j < k :: out[j] == byId[ids[j]] && out[j].owner == ids[j]
      {
        assert ids[k] in ids;
        out := out + [byId[ids[k]]];
      }
      forall id ensures Registered(id, resources, pages) <==> exists m :: m in out && m.owner == id {
        if Registered(id, resources, pages) {
          assert id in ids;
          var k :| 0 <= k < |ids| && ids[k] == id;
          assert out[k] in out && out[k].owner == id;
        }
        if m :| m in out && m.owner == id {
          var k :| 0 <= k < |out| && out[k] == m;
          assert ids[k] in ids;
        }
      }
    }
  }

  method SortedIds(order: seq<string>) returns (ids: seq<string>)
    requires NoDuplicates(order)
    ensures forall i, j | 0 <= i < j < |ids| :: Text.Less(ids[i], ids[j])
    ensures forall id :: id in ids <==> id in order
  {
    ids := StableSort(Text.AtMost, order);
    AtMostIsPreorder();
    StableSortSorts(Text.AtMost, order);
    StableSortKeepsDistinct(Text.AtMost, order);
    forall i, j | 0 <= i < j < |ids| ensures Text.Less(ids[i], ids[j]) {
      Text.LessTotal(ids[i], ids[j]);
    }
    forall id ensures id in ids <==> id in order {
      StableSortMember(Text.AtMost, order, id);
    }
  }
}
