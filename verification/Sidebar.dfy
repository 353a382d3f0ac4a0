/** pkg/admin/shell.go: merging registered sidebar sections into one rail. */
module Sidebar {
  import opened Sequences
  import Text

  datatype Item = Item(path: string, title: string)

  // A section as a reader sees it; its title is the source's Label.
  datatype Group = Group(owner: string, title: string, order: int, items: seq<Item>)

  // members[i].Order, then members[i].Label
  predicate NotAfter(a: Group, b: Group) {
    a.order < b.order || (a.order == b.order && Text.AtMost(a.title, b.title))
  }

  predicate NotAfterByOrder(a: Group, b: Group) {
    a.order <= b.order
  }

  // ----- the merge as a function -----

  predicate Labels(groups: seq<Group>, title: string) {
    exists g | g in groups :: g.title == title
  }

  function WithItems(groups: seq<Group>, m: Group): seq<Group> {
    Map((g: Group) => if g.title == m.title then g.(items := g.items + m.items) else g, groups)
  }

  // One step of the loop: extend the member's group, or open it.
  function MergeOne(groups: seq<Group>, m: Group): seq<Group> {
    if Labels(groups, m.title) then WithItems(groups, m) else groups + [m]
  }

  function MergeAll(members: seq<Group>): seq<Group> {
    if members == [] then []
    else MergeOne(MergeAll(members[..|members| - 1]), members[|members| - 1])
  }

  function Merged(sections: seq<Group>): seq<Group> {
    MergeAll(StableSort(NotAfter, sections))
  }

  // The items of the members with one label, in member order.
  function ItemsOf(title: string, members: seq<Group>): seq<Item> {
    if members == [] then []
    else
      var front := ItemsOf(title, members[..|members| - 1]);
      if members[|members| - 1].title == title then front + members[|members| - 1].items else front
  }

  function AllItems(groups: seq<Group>): multiset<Item> {
    if groups == [] then multiset{} else multiset(groups[0].items) + AllItems(groups[1..])
  }

  predicate DistinctLabels(groups: seq<Group>) {
    forall i, j | 0 <= i < j < |groups| :: groups[i].title != groups[j].title
  }

  // g opens with its first member: same owner and order, all the label's items.
  ghost predicate GroupOf(g: Group, members: seq<Group>) {
    && g.items == ItemsOf(g.title, members)
    && exists m :: m in members && g == m.(items := g.items)
                   && forall o | o in members && o.title == g.title :: NotAfter(m, o)
  }

  // ----- facts about the loop -----

  lemma NotAfterIsPreorder()
    ensures TotalPreorder(NotAfter)
  {
    forall x: Group, y: Group ensures NotAfter(x, y) || NotAfter(y, x) {
      Text.LessTotal(x.title, y.title);
    }
    forall x: Group, y: Group, z: Group | NotAfter(x, y) && NotAfter(y, z) ensures NotAfter(x, z) {
      if x.order == z.order {
        Text.AtMostTransitive(x.title, y.title, z.title);
      }
    }
  }

  lemma MergeOneLabels(groups: seq<Group>, m: Group)
    requires DistinctLabels(groups)
    ensures DistinctLabels(MergeOne(groups, m))
    ensures forall l :: Labels(MergeOne(groups, m), l) <==> Labels(groups, l) || l == m.title
  {
    var next := MergeOne(groups, m);
    forall l ensures Labels(next, l) <==> Labels(groups, l) || l == m.title {
      if Labels(groups, l) {
        var g :| g in groups && g.title == l;
        var k :| 0 <= k < |groups| && groups[k] == g;
        assert next[k] in next && next[k].title == l;
      }
      if Labels(next, l) {
        var g :| g in next && g.title == l;
        var k :| 0 <= k < |next| && next[k] == g;
        assert k < |groups| ==> groups[k] in groups && groups[k].title == l;
      }
      if l == m.title && !Labels(groups, l) {
        assert m in next;
      }
    }
    if !Labels(groups, m.title) {
      assert forall i | 0 <= i < |groups| :: groups[i] in groups;
    }
  }

  lemma {:induction false} MergeAllLabels(members: seq<Group>)
    ensures DistinctLabels(MergeAll(members))
    ensures forall l :: Labels(MergeAll(members), l) <==> Labels(members, l)
  {
    if members != [] {
      var front, m := members[..|members| - 1], members[|members| - 1];
      MergeAllLabels(front);
      MergeOneLabels(MergeAll(front), m);
      forall l ensures Labels(members, l) <==> Labels(front, l) || l == m.title {
        assert members == front + [m];
        if Labels(front, l) {
          var g :| g in front && g.title == l;
          assert g in members;
        }
      }
    }
  }

  lemma {:induction false} ItemsOfAbsent(title: string, members: seq<Group>)
    requires !Labels(members, title)
    ensures ItemsOf(title, members) == []
  {
    if members != [] {
      var front := members[..|members| - 1];
      assert members[|members| - 1] in members && forall g | g in front :: g in members;
      ItemsOfAbsent(title, front);
    }
  }

  lemma GroupOfOneMore(g: Group, front: seq<Group>, m: Group)
    requires GroupOf(g, front) && Sorted(NotAfter, front + [m])
    ensures GroupOf(if g.title == m.title then g.(items := g.items + m.items) else g, front + [m])
  {
    var members := front + [m];
    assert members[..|members| - 1] == front;
    var first :| first in front && g == first.(items := g.items)
                 && forall o | o in front && o.title == g.title :: NotAfter(first, o);
    var i :| 0 <= i < |front| && front[i] == first;
    assert members[i] == first && NotAfter(members[i], members[|front|]);
    assert first in members;
    var next := if g.title == m.title then g.(items := g.items + m.items) else g;
    assert next == first.(items := next.items);
    forall o | o in members && o.title == g.title ensures NotAfter(first, o) {
      assert o in front || o == m;
    }
  }

  lemma NewGroupOf(front: seq<Group>, m: Group)
    requires !Labels(front, m.title)
    ensures GroupOf(m, front + [m])
  {
    var members := front + [m];
    assert members[..|members| - 1] == front;
    ItemsOfAbsent(m.title, front);
    Text.LessTotal(m.title, m.title);
    assert m in members && m == m.(items := m.items);
    forall o | o in members && o.title == m.title ensures NotAfter(m, o) {
      assert o in front || o == m;
    }
  }

  lemma {:induction false} MergeAllGroups(members: seq<Group>)
    requires Sorted(NotAfter, members)
    ensures forall g | g in MergeAll(members) :: GroupOf(g, members)
    ensures Sorted(NotAfter, MergeAll(members))
  {
    if members != [] {
      var front, m := members[..|members| - 1], members[|members| - 1];
      var before, after := MergeAll(front), MergeAll(members);
      assert members == front + [m];
      MergeAllGroups(front);
      MergeAllLabels(front);
      forall g | g in after ensures GroupOf(g, members) {
        var k :| 0 <= k < |after| && after[k] == g;
        if k < |before| {
          assert before[k] in before;
          GroupOfOneMore(before[k], front, m);
          if !Labels(before, m.title) {
            assert before[k].title != m.title;
          }
        } else {
          NewGroupOf(front, m);
        }
      }
      forall i, j | 0 <= i < j < |after| ensures NotAfter(after[i], after[j]) {
        if j < |before| {
          assert NotAfter(before[i], before[j]);
        } else {
          assert before[i] in before;
          var first :| first in front && before[i] == first.(items := before[i].items);
          var k :| 0 <= k < |front| && front[k] == first;
          assert NotAfter(members[k], members[|front|]);
        }
      }
    }
  }

  // ----- conservation -----

  lemma {:induction false} AllItemsAppend(a: seq<Group>, b: seq<Group>)
    ensures AllItems(a + b) == AllItems(a) + AllItems(b)
  {
    if a == [] {
      assert a + b == b;
    } else {
      assert (a + b)[1..] == a[1..] + b;
      AllItemsAppend(a[1..], b);
    }
  }

  lemma TitlesOfTail(groups: seq<Group>, title: string)
    requires groups != []
    ensures Labels(groups, title) <==> groups[0].title == title || Labels(groups[1..], title)
  {
    assert groups == [groups[0]] + groups[1..];
    if Labels(groups[1..], title) {
      var g :| g in groups[1..] && g.title == title;
      assert g in groups;
    }
    assert groups[0] in groups;
  }

  lemma FirstLabelIsNew(groups: seq<Group>)
    requires groups != [] && DistinctLabels(groups)
    ensures !Labels(groups[1..], groups[0].title)
  {
    forall k | 0 <= k < |groups[1..]| ensures groups[1..][k].title != groups[0].title {
      assert groups[0].title != groups[k + 1].title;
    }
  }

  lemma ItemsJoin(a: seq<Item>, b: seq<Item>)
    ensures multiset(a + b) == multiset(a) + multiset(b)
  {
  }

  lemma {:induction false} AllItemsExtended(groups: seq<Group>, m: Group)
    requires DistinctLabels(groups)
    ensures AllItems(WithItems(groups, m)) ==
            AllItems(groups) + if Labels(groups, m.title) then multiset(m.items) else multiset{}
  {
    if groups != [] {
      var first, rest := groups[0], groups[1..];
      AllItemsExtended(rest, m);
      TitlesOfTail(groups, m.title);
      assert WithItems(groups, m)[1..] == WithItems(rest, m);
      FirstLabelIsNew(groups);
      if first.title == m.title {
        ItemsJoin(first.items, m.items);
      }
    }
  }

  lemma {:induction false} MergeAllConserves(members: seq<Group>)
    ensures AllItems(MergeAll(members)) == AllItems(members)
  {
    if members != [] {
      var front, m := members[..|members| - 1], members[|members| - 1];
      MergeAllConserves(front);
      MergeAllLabels(front);
      AllItemsExtended(MergeAll(front), m);
      AllItemsAppend(MergeAll(front), [m]);
      AllItemsAppend(front, [m]);
      assert members == front + [m];
      assert [m][1..] == [];
    }
  }

  lemma {:induction false} AllItemsInsert(x: Group, s: seq<Group>)
    ensures AllItems(Insert(NotAfter, x, s)) == multiset(x.items) + AllItems(s)
  {
    if s != [] && !NotAfter(x, s[0]) {
      AllItemsInsert(x, s[1..]);
      assert Insert(NotAfter, x, s)[1..] == Insert(NotAfter, x, s[1..]);
    } else {
      assert ([x] + s)[1..] == s;
    }
  }

  lemma {:induction false} AllItemsSorted(s: seq<Group>)
    ensures AllItems(StableSort(NotAfter, s)) == AllItems(s)
  {
    if s != [] {
      AllItemsSorted(s[1..]);
      AllItemsInsert(s[0], StableSort(NotAfter, s[1..]));
    }
  }

  // ----- what the rail shows -----

  lemma {:induction false} ItemsOfFilter(title: string, members: seq<Group>)
    ensures ItemsOf(title, members) ==
            Flatten(Map((g: Group) => g.items, Filter((g: Group) => g.title == title, members)))
  {
    var p, f := (g: Group) => g.title == title, (g: Group) => g.items;
    if members != [] {
      var front, m := members[..|members| - 1], members[|members| - 1];
      ItemsOfFilter(title, front);
      assert members == front + [m];
      FilterAppend(p, front, [m]);
      FilterAgree(p, (g: Group) => g.title == title, front);
      FilterAgree(p, (g: Group) => g.title == title, members);
      assert Filter(p, [m]) == if p(m) then [m] else [];
      assert Map(f, Filter(p, members)) == Map(f, Filter(p, front)) + Map(f, Filter(p, [m]));
      FlattenAppend(Map(f, Filter(p, front)), Map(f, Filter(p, [m])));
      assert Map(f, Filter(p, members)) == Map((g: Group) => g.items, Filter((g: Group) => g.title == title, members));
      assert Map(f, Filter(p, front)) == Map((g: Group) => g.items, Filter((g: Group) => g.title == title, front));
      if p(m) {
        assert Map(f, [m]) == [m.items];
        assert Flatten([m.items]) == m.items;
      }
    }
  }

  // The label's sections in (Order, registration) order.
  function Members(title: string, sections: seq<Group>): seq<Group> {
    StableSort(NotAfterByOrder, Filter((g: Group) => g.title == title, sections))
  }

  lemma MembersAreSorted(title: string, sections: seq<Group>)
    ensures Filter((g: Group) => g.title == title, StableSort(NotAfter, sections)) == Members(title, sections)
  {
    var p := (g: Group) => g.title == title;
    NotAfterIsPreorder();
    FilterStableSort(p, NotAfter, sections);
    var own := Filter(p, sections);
    forall x, y | x in own && y in own ensures NotAfter(x, y) == NotAfterByOrder(x, y) {
      FilterMember(p, sections, x);
      FilterMember(p, sections, y);
      Text.LessTotal(x.title, y.title);
    }
    StableSortAgree(NotAfter, NotAfterByOrder, own);
    FilterAgree(p, (g: Group) => g.title == title, StableSort(NotAfter, sections));
    FilterAgree(p, (g: Group) => g.title == title, sections);
  }

  // The group of a label opens with the first member that has it.
  lemma {:induction false} GroupsOpenFirst(members: seq<Group>, g: Group) returns (k: nat)
    requires g in MergeAll(members)
    ensures k < |members| && members[k].title == g.title && forall j | 0 <= j < k :: members[j].title != g.title
    ensures g == members[k].(items := g.items)
  {
    var front, m := members[..|members| - 1], members[|members| - 1];
    var before := MergeAll(front);
    var i :| 0 <= i < |MergeAll(members)| && MergeAll(members)[i] == g;
    if i < |before| {
      assert before[i] in before;
      k := GroupsOpenFirst(front, before[i]);
    } else {
      k := |front|;
      MergeAllLabels(front);
      forall j | 0 <= j < k ensures members[j].title != g.title {
        assert front[j] in front;
      }
    }
  }

  lemma {:induction false} FilterStartsWith<T>(p: T -> bool, s: seq<T>, k: nat)
    requires k < |s| && p(s[k]) && forall j | 0 <= j < k :: !p(s[j])
    ensures Filter(p, s) != [] && Filter(p, s)[0] == s[k]
    decreases k
  {
    if k > 0 {
      FilterStartsWith(p, s[1..], k - 1);
    }
  }

  // The owner shown is that of the earliest registered section of the label's lowest order.
  lemma RailIsOpenedByFirst(sections: seq<Group>, g: Group)
    requires g in Merged(sections)
    ensures var own := Members(g.title, sections); own != [] && g == own[0].(items := g.items)
  {
    var members, p := StableSort(NotAfter, sections), (m: Group) => m.title == g.title;
    var k := GroupsOpenFirst(members, g);
    FilterStartsWith(p, members, k);
    MembersAreSorted(g.title, sections);
    FilterAgree(p, (m: Group) => m.title == g.title, members);
  }

  // One group per distinct label, in (Order, Label) order; each group at its
  // earliest member's order, holding its members' items in (Order, registration) order.
  lemma RailIsMergedByLabel(sections: seq<Group>)
    ensures var rail := Merged(sections);
            && DistinctLabels(rail)
            && (forall l :: Labels(rail, l) <==> Labels(sections, l))
            && Sorted(NotAfter, rail)
            && (forall g | g in rail :: g.items == Flatten(Map((m: Group) => m.items, Members(g.title, sections))))
            && (forall g | g in rail :: exists m ::
                 m in sections && m.title == g.title && m.owner == g.owner && m.order == g.order)
            && (forall g, m | g in rail && m in sections && m.title == g.title :: g.order <= m.order)
  {
    var members, rail := StableSort(NotAfter, sections), Merged(sections);
    NotAfterIsPreorder();
    StableSortSorts(NotAfter, sections);
    forall m ensures m in members <==> m in sections {
      StableSortMember(NotAfter, sections, m);
    }
    MergeAllLabels(members);
    MergeAllGroups(members);
    assert forall l :: Labels(members, l) <==> Labels(sections, l);
    forall g | g in rail ensures g.items == Flatten(Map((m: Group) => m.items, Members(g.title, sections))) {
      assert GroupOf(g, members);
      ItemsOfFilter(g.title, members);
      MembersAreSorted(g.title, sections);
    }
    forall g | g in rail
      ensures exists m :: m in sections && m.title == g.title && m.owner == g.owner && m.order == g.order
    {
      assert GroupOf(g, members);
      var m :| m in members && g == m.(items := g.items);
      assert m in sections;
    }
    forall g, m | g in rail && m in sections && m.title == g.title ensures g.order <= m.order {
      assert GroupOf(g, members);
      var first :| first in members && g == first.(items := g.items)
                   && forall o | o in members && o.title == g.title :: NotAfter(first, o);
      assert m in members;
    }
  }

  // No item is lost or duplicated.
  lemma RailConservesItems(sections: seq<Group>)
    ensures AllItems(Merged(sections)) == AllItems(sections)
  {
    MergeAllConserves(StableSort(NotAfter, sections));
    AllItemsSorted(sections);
  }
}
