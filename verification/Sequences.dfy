/** Options, and filtering, flattening and stable sorting of sequences. */
module Sequences {
  import Text

  datatype Option<+T> = None | Some(value: T)

  datatype Result<+T, +E> = Ok(value: T) | Err(error: E)

  function Filter<T>(p: T -> bool, s: seq<T>): seq<T> {
    if s == [] then [] else if p(s[0]) then [s[0]] + Filter(p, s[1..]) else Filter(p, s[1..])
  }

  lemma {:induction false} FilterAppend<T>(p: T -> bool, a: seq<T>, b: seq<T>)
    ensures Filter(p, a + b) == Filter(p, a) + Filter(p, b)
  {
    if a == [] {
      assert a + b == b;
    } else {
      assert (a + b)[1..] == a[1..] + b;
      FilterAppend(p, a[1..], b);
    }
  }

  lemma {:induction false} FilterMember<T>(p: T -> bool, s: seq<T>, x: T)
    ensures x in Filter(p, s) <==> x in s && p(x)
  {
    if s != [] {
      FilterMember(p, s[1..], x);
      assert s == [s[0]] + s[1..];
    }
  }

  lemma {:induction false} FilterAgree<T>(p: T -> bool, q: T -> bool, s: seq<T>)
    requires forall x | x in s :: p(x) == q(x)
    ensures Filter(p, s) == Filter(q, s)
  {
    if s != [] {
      FilterAgree(p, q, s[1..]);
    }
  }

  lemma {:induction false} FilterNone<T>(p: T -> bool, s: seq<T>)
    requires forall x | x in s :: !p(x)
    ensures Filter(p, s) == []
  {
    if s != [] {
      FilterNone(p, s[1..]);
    }
  }

  lemma {:induction false} FilterCounts<T>(p: T -> bool, s: seq<T>, x: T)
    ensures multiset(Filter(p, s))[x] == if p(x) then multiset(s)[x] else 0
  {
    if s != [] {
      FilterCounts(p, s[1..], x);
      assert s == [s[0]] + s[1..];
    }
  }

  function Flatten<T>(ss: seq<seq<T>>): seq<T> {
    if ss == [] then [] else ss[0] + Flatten(ss[1..])
  }

  lemma {:induction false} FlattenAppend<T>(a: seq<seq<T>>, b: seq<seq<T>>)
    ensures Flatten(a + b) == Flatten(a) + Flatten(b)
  {
    if a == [] {
      assert a + b == b;
    } else {
      assert (a + b)[1..] == a[1..] + b;
      FlattenAppend(a[1..], b);
    }
  }

  predicate NoDuplicates<T(==)>(s: seq<T>) {
    forall i, j | 0 <= i < j < |s| :: s[i] != s[j]
  }

  lemma {:induction false} FilterKeepsDistinct<T>(p: T -> bool, s: seq<T>)
    requires NoDuplicates(s)
    ensures NoDuplicates(Filter(p, s))
  {
    if s != [] {
      var rest := s[1..];
      FilterKeepsDistinct(p, rest);
      forall x | x in Filter(p, rest) ensures x != s[0] {
        FilterMember(p, rest, x);
        var i :| 0 <= i < |rest| && rest[i] == x;
        assert s[0] != s[i + 1];
      }
      assert forall j | 0 <= j < |Filter(p, rest)| :: Filter(p, rest)[j] in Filter(p, rest);
    }
  }

  // ----- stable sorting -----

  ghost predicate TotalPreorder<T(!new)>(le: (T, T) -> bool) {
    && (forall x, y :: le(x, y) || le(y, x))
    && (forall x, y, z :: le(x, y) && le(y, z) ==> le(x, z))
  }

  ghost predicate Sorted<T>(le: (T, T) -> bool, s: seq<T>) {
    forall i, j | 0 <= i < j < |s| :: le(s[i], s[j])
  }

  function Insert<T>(le: (T, T) -> bool, x: T, s: seq<T>): seq<T> {
    if s == [] || le(x, s[0]) then [x] + s else [s[0]] + Insert(le, x, s[1..])
  }

  /** sort.SliceStable, and ORDER BY with ties left in table order. */
  function StableSort<T>(le: (T, T) -> bool, s: seq<T>): seq<T> {
    if s == [] then [] else Insert(le, s[0], StableSort(le, s[1..]))
  }

  lemma {:induction false} InsertPermutes<T>(le: (T, T) -> bool, x: T, s: seq<T>)
    ensures multiset(Insert(le, x, s)) == multiset{x} + multiset(s)
  {
    if s != [] && !le(x, s[0]) {
      InsertPermutes(le, x, s[1..]);
      assert s == [s[0]] + s[1..];
    }
  }

  lemma {:induction false} InsertSorts<T(!new)>(le: (T, T) -> bool, x: T, s: seq<T>)
    requires TotalPreorder(le) && Sorted(le, s)
    ensures Sorted(le, Insert(le, x, s))
  {
    if s != [] && !le(x, s[0]) {
      InsertSorts(le, x, s[1..]);
      var r := Insert(le, x, s[1..]);
      InsertPermutes(le, x, s[1..]);
      forall y | y in r ensures le(s[0], y) {
        assert y in multiset(r);
        assert y == x || y in s[1..];
      }
    } else if s != [] {
      forall y | y in s ensures le(x, y) {
        assert le(x, s[0]);
      }
    }
  }

  lemma {:induction false} StableSortSorts<T(!new)>(le: (T, T) -> bool, s: seq<T>)
    requires TotalPreorder(le)
    ensures Sorted(le, StableSort(le, s))
  {
    if s != [] {
      StableSortSorts(le, s[1..]);
      InsertSorts(le, s[0], StableSort(le, s[1..]));
    }
  }

  lemma {:induction false} StableSortPermutes<T>(le: (T, T) -> bool, s: seq<T>)
    ensures multiset(StableSort(le, s)) == multiset(s)
    ensures |StableSort(le, s)| == |s|
  {
    if s != [] {
      StableSortPermutes(le, s[1..]);
      InsertPermutes(le, s[0], StableSort(le, s[1..]));
      assert s == [s[0]] + s[1..];
    }
    assert |multiset(StableSort(le, s))| == |multiset(s)|;
  }

  lemma StableSortMember<T>(le: (T, T) -> bool, s: seq<T>, x: T)
    ensures x in StableSort(le, s) <==> x in s
  {
    StableSortPermutes(le, s);
    assert x in StableSort(le, s) <==> x in multiset(StableSort(le, s));
    assert x in s <==> x in multiset(s);
  }

  lemma {:induction false} OnceEach<T>(s: seq<T>)
    ensures NoDuplicates(s) <==> forall x :: multiset(s)[x] <= 1
  {
    if s != [] {
      var front, last := s[..|s| - 1], s[|s| - 1];
      OnceEach(front);
      assert s == front + [last];
      assert last in front <==> multiset(front)[last] > 0;
      if NoDuplicates(s) {
        assert NoDuplicates(front);
      } else if NoDuplicates(front) {
        assert last in front;
        assert multiset(s)[last] > 1;
      } else {
        var x :| multiset(front)[x] > 1;
        assert multiset(s)[x] > 1;
      }
    }
  }

  lemma StableSortKeepsDistinct<T>(le: (T, T) -> bool, s: seq<T>)
    requires NoDuplicates(s)
    ensures NoDuplicates(StableSort(le, s))
  {
    OnceEach(s);
    StableSortPermutes(le, s);
    OnceEach(StableSort(le, s));
  }

  lemma {:induction false} InsertAgree<T>(le: (T, T) -> bool, le': (T, T) -> bool, x: T, s: seq<T>)
    requires forall y | y in s :: le(x, y) == le'(x, y)
    ensures Insert(le, x, s) == Insert(le', x, s)
  {
    if s != [] {
      InsertAgree(le, le', x, s[1..]);
    }
  }

  lemma AtMostIsPreorder()
    ensures TotalPreorder(Text.AtMost)
  {
    forall x: string, y: string ensures Text.AtMost(x, y) || Text.AtMost(y, x) {
      Text.LessTotal(x, y);
    }
    forall x: string, y: string, z: string | Text.AtMost(x, y) && Text.AtMost(y, z) ensures Text.AtMost(x, z) {
      Text.AtMostTransitive(x, y, z);
    }
  }

  // Only the comparisons between elements of s matter.
  lemma {:induction false} StableSortAgree<T>(le: (T, T) -> bool, le': (T, T) -> bool, s: seq<T>)
    requires forall x, y | x in s && y in s :: le(x, y) == le'(x, y)
    ensures StableSort(le, s) == StableSort(le', s)
  {
    if s != [] {
      StableSortAgree(le, le', s[1..]);
      forall y | y in StableSort(le, s[1..]) ensures le(s[0], y) == le'(s[0], y) {
        StableSortMember(le, s[1..], y);
      }
      InsertAgree(le, le', s[0], StableSort(le, s[1..]));
    }
  }

  lemma {:induction false} FilterInsert<T(!new)>(p: T -> bool, le: (T, T) -> bool, x: T, s: seq<T>)
    requires TotalPreorder(le) && Sorted(le, s)
    ensures Filter(p, Insert(le, x, s)) ==
            if p(x) then Insert(le, x, Filter(p, s)) else Filter(p, s)
  {
    if s == [] {
    } else if le(x, s[0]) {
      assert ([x] + s)[1..] == s;
      var f := Filter(p, s);
      if p(x) && f != [] {
        FilterMember(p, s, f[0]);
        assert le(x, f[0]);
      }
    } else {
      FilterInsert(p, le, x, s[1..]);
      var r := Insert(le, x, s[1..]);
      assert ([s[0]] + r)[1..] == r;
      if p(x) && p(s[0]) {
        assert Filter(p, s) == [s[0]] + Filter(p, s[1..]);
        assert Filter(p, s)[1..] == Filter(p, s[1..]);
      }
    }
  }

  // Stability: sorting then selecting is selecting then sorting.
  lemma {:induction false} FilterStableSort<T(!new)>(p: T -> bool, le: (T, T) -> bool, s: seq<T>)
    requires TotalPreorder(le)
    ensures Filter(p, StableSort(le, s)) == StableSort(le, Filter(p, s))
  {
    if s != [] {
      FilterStableSort(p, le, s[1..]);
      StableSortSorts(le, s[1..]);
      FilterInsert(p, le, s[0], StableSort(le, s[1..]));
      if p(s[0]) {
        assert Filter(p, s)[1..] == Filter(p, s[1..]);
      }
    }
  }

  function Map<A, B>(f: A -> B, s: seq<A>): seq<B> {
    seq(|s|, i requires 0 <= i < |s| => f(s[i]))
  }

  lemma {:induction false} MapInsert<A, B>(f: A -> B, le: (A, A) -> bool, le': (B, B) -> bool, x: A, s: seq<A>)
    requires forall y | y in s :: le(x, y) == le'(f(x), f(y))
    ensures Map(f, Insert(le, x, s)) == Insert(le', f(x), Map(f, s))
  {
    if s != [] && !le(x, s[0]) {
      MapInsert(f, le, le', x, s[1..]);
      assert Map(f, s)[1..] == Map(f, s[1..]);
    }
  }

  // Sorting sees only what the comparison sees.
  lemma {:induction false} MapStableSort<A, B>(f: A -> B, le: (A, A) -> bool, le': (B, B) -> bool, s: seq<A>)
    requires forall x, y | x in s && y in s :: le(x, y) == le'(f(x), f(y))
    ensures Map(f, StableSort(le, s)) == StableSort(le', Map(f, s))
  {
    if s != [] {
      MapStableSort(f, le, le', s[1..]);
      assert Map(f, s)[1..] == Map(f, s[1..]);
      forall y | y in StableSort(le, s[1..]) ensures le(s[0], y) == le'(f(s[0]), f(y)) {
        StableSortMember(le, s[1..], y);
      }
      MapInsert(f, le, le', s[0], StableSort(le, s[1..]));
    }
  }

  // LIMIT limit OFFSET offset
  function Page<T>(s: seq<T>, limit: nat, offset: nat): seq<T> {
    var rest := if offset <= |s| then s[offset..] else [];
    if limit <= |rest| then rest[..limit] else rest
  }

  // A page holds what stands from the offset on, as far as the limit goes.
  lemma PageMeans<T>(s: seq<T>, limit: nat, offset: nat)
    ensures var page := Page(s, limit, offset);
            && (|page| == limit || (|page| < limit && offset + |page| == |s|) || (page == [] && offset >= |s|))
            && forall i | 0 <= i < |page| :: offset + i < |s| && page[i] == s[offset + i]
  {
  }

  // k * limit
  function Offset(limit: nat, k: nat): nat {
    if k == 0 then 0 else Offset(limit, k - 1) + limit
  }

  // The concatenation of the first n pages.
  function Pages<T>(s: seq<T>, limit: nat, n: nat): seq<T> {
    if n == 0 then [] else Pages(s, limit, n - 1) + Page(s, limit, Offset(limit, n - 1))
  }

  lemma {:induction false} PagesTile<T>(s: seq<T>, limit: nat, n: nat)
    ensures Pages(s, limit, n) == if Offset(limit, n) <= |s| then s[..Offset(limit, n)] else s
  {
    if n > 0 {
      PagesTile(s, limit, n - 1);
    }
  }
}
