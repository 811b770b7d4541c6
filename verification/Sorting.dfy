/** Sorting and string comparison, as the Python built-ins `sorted`, `list.sort` and `bisect.insort`
    provide them: a stable sort by an order `le`, and the code-point order on strings. */
module Sorting {

  /** `le` compares any two values and is transitive; two distinct values may compare equal both ways. */
  ghost predicate TotalPreorder<T(!new)>(le: (T, T) -> bool) {
    && (forall x, y :: le(x, y) || le(y, x))
    && (forall x, y, z :: le(x, y) && le(y, z) ==> le(x, z))
  }

  /** No two distinct elements of `s` are tied. */
  ghost predicate NoTies<T(!new)>(le: (T, T) -> bool, s: seq<T>) {
    forall x, y :: x in s && y in s && le(x, y) && le(y, x) ==> x == y
  }

  ghost predicate SortedBy<T>(le: (T, T) -> bool, s: seq<T>) {
    forall i, j :: 0 <= i < j < |s| ==> le(s[i], s[j])
  }

  ghost predicate Distinct<T>(s: seq<T>) {
    forall i, j :: 0 <= i < j < |s| ==> s[i] != s[j]
  }

  /** `bisect.insort`: insert to the right of the elements that are not larger. */
  function Insort<T>(le: (T, T) -> bool, s: seq<T>, x: T): (r: seq<T>)
    ensures multiset(r) == multiset(s) + multiset{x}
    ensures |r| == |s| + 1
  {
    if s == [] then [x]
    else if le(s[0], x) then
      assert s == [s[0]] + s[1..];
      [s[0]] + Insort(le, s[1..], x)
    else [x] + s
  }

  /** `sorted`: stable, one element at a time. */
  function Sort<T>(le: (T, T) -> bool, s: seq<T>): (r: seq<T>)
    ensures multiset(r) == multiset(s)
    ensures |r| == |s|
  {
    if s == [] then []
    else
      assert s == s[..|s| - 1] + [s[|s| - 1]];
      Insort(le, Sort(le, s[..|s| - 1]), s[|s| - 1])
  }

  lemma Parts<T>(s: seq<T>, k: nat)
    requires k <= |s|
    ensures s == s[..k] + s[k..]
    ensures forall x :: x in s[..k] ==> x in s
    ensures forall x :: x in s[k..] ==> x in s
  {
  }

  lemma MultisetMembers<T>(s: seq<T>, t: seq<T>)
    requires multiset(s) == multiset(t)
    ensures forall x :: x in s <==> x in t
  {
    assert forall x :: x in s <==> x in multiset(s);
    assert forall x :: x in t <==> x in multiset(t);
  }

  lemma InsortCons<T>(le: (T, T) -> bool, s: seq<T>, x: T)
    requires s != [] && le(s[0], x)
    ensures Insort(le, s, x) == [s[0]] + Insort(le, s[1..], x)
  {
  }

  lemma SortLast<T>(le: (T, T) -> bool, s: seq<T>)
    requires s != []
    ensures Sort(le, s) == Insort(le, Sort(le, s[..|s| - 1]), s[|s| - 1])
  {
  }

  lemma SortedMember<T>(le: (T, T) -> bool, s: seq<T>, i: nat)
    requires i < |s|
    ensures Sort(le, s)[i] in s
  {
    assert Sort(le, s)[i] in multiset(Sort(le, s));
  }

  lemma {:induction false} InsortSorts<T(!new)>(le: (T, T) -> bool, s: seq<T>, x: T)
    requires TotalPreorder(le) && SortedBy(le, s)
    ensures SortedBy(le, Insort(le, s, x))
  {
    if s != [] && le(s[0], x) {
      InsortSorts(le, s[1..], x);
      var tail := Insort(le, s[1..], x);
      forall j | 0 <= j < |tail| ensures le(s[0], tail[j]) {
        assert tail[j] in multiset(s[1..]) + multiset{x};
        assert tail[j] in s[1..] || tail[j] == x;
      }
    } else if s != [] {
      assert le(x, s[0]);
      assert forall j :: 0 < j < |s| ==> le(s[0], s[j]);
    }
  }

  lemma {:induction false} SortSorts<T(!new)>(le: (T, T) -> bool, s: seq<T>)
    requires TotalPreorder(le)
    ensures SortedBy(le, Sort(le, s))
  {
    if s != [] {
      SortSorts(le, s[..|s| - 1]);
      InsortSorts(le, Sort(le, s[..|s| - 1]), s[|s| - 1]);
    }
  }

  /** Without ties two sorted arrangements of a bag of values start alike. */
  lemma SortedSameHead<T(!new)>(le: (T, T) -> bool, s: seq<T>, t: seq<T>)
    requires SortedBy(le, s) && SortedBy(le, t) && multiset(s) == multiset(t) && NoTies(le, s)
    requires s != [] && t != []
    ensures s[0] == t[0]
  {
    MultisetMembers(s, t);
    assert t[0] in s && s[0] in t;
    var i :| 0 <= i < |s| && s[i] == t[0];
    var j :| 0 <= j < |t| && t[j] == s[0];
    if i > 0 && j > 0 {
      assert le(s[0], s[i]) && le(t[0], t[j]);
    }
  }

  lemma Tail<T(!new)>(le: (T, T) -> bool, s: seq<T>)
    requires s != [] && SortedBy(le, s)
    ensures s == [s[0]] + s[1..] && multiset(s[1..]) == multiset(s) - multiset{s[0]}
    ensures SortedBy(le, s[1..]) && (NoTies(le, s) ==> NoTies(le, s[1..]))
  {
    assert s == [s[0]] + s[1..];
    assert forall x :: x in s[1..] ==> x in s;
  }

  /** Without ties the sorted arrangement of a bag of values is unique. */
  lemma {:induction false} SortedUnique<T(!new)>(le: (T, T) -> bool, s: seq<T>, t: seq<T>)
    requires SortedBy(le, s) && SortedBy(le, t) && multiset(s) == multiset(t) && NoTies(le, s)
    ensures s == t
  {
    assert |multiset(s)| == |s| && |multiset(t)| == |t|;
    if s != [] {
      SortedSameHead(le, s, t);
      Tail(le, s);
      Tail(le, t);
      hide SortedBy, NoTies;
      assert forall x :: x in s[1..] ==> x in s;
      SortedUnique(le, s[1..], t[1..]);
    }
  }

  lemma {:induction false} DistinctMultiplicity<T>(s: seq<T>, x: T)
    requires Distinct(s)
    ensures multiset(s)[x] == if x in s then 1 else 0
  {
    if s != [] {
      assert s == [s[0]] + s[1..];
      DistinctMultiplicity(s[1..], x);
    }
  }

  lemma {:induction false} MultiplicityDistinct<T>(s: seq<T>)
    requires forall x :: multiset(s)[x] <= 1
    ensures Distinct(s)
  {
    if s != [] {
      assert s == [s[0]] + s[1..];
      assert forall x :: multiset(s)[x] == multiset{s[0]}[x] + multiset(s[1..])[x];
      MultiplicityDistinct(s[1..]);
      assert s[0] !in s[1..] by {
        assert multiset(s[1..])[s[0]] == 0;
      }
    }
  }

  lemma PermutationDistinct<T>(s: seq<T>, t: seq<T>)
    requires Distinct(s) && multiset(s) == multiset(t)
    ensures Distinct(t)
  {
    forall x ensures multiset(t)[x] <= 1 { DistinctMultiplicity(s, x); }
    MultiplicityDistinct(t);
  }

  lemma DistinctSameMembers<T>(s: seq<T>, t: seq<T>)
    requires Distinct(s) && Distinct(t) && (forall x :: x in s <==> x in t)
    ensures multiset(s) == multiset(t)
  {
    forall x ensures multiset(s)[x] == multiset(t)[x] {
      DistinctMultiplicity(s, x);
      DistinctMultiplicity(t, x);
    }
  }

  /** The list comprehension `[x for x in s if p(x)]`. */
  function Filter<T(!new)>(p: T -> bool, s: seq<T>): (r: seq<T>)
    ensures forall x :: x in r <==> x in s && p(x)
    ensures |r| <= |s|
  {
    if s == [] then []
    else
      assert s == [s[0]] + s[1..];
      (if p(s[0]) then [s[0]] else []) + Filter(p, s[1..])
  }

  lemma {:induction false} FilterConcat<T(!new)>(p: T -> bool, s: seq<T>, t: seq<T>)
    ensures Filter(p, s + t) == Filter(p, s) + Filter(p, t)
  {
    if s == [] {
      assert s + t == t;
    } else {
      assert (s + t)[1..] == s[1..] + t;
      FilterConcat(p, s[1..], t);
    }
  }

  /** `r` holds the elements of `s` at these places, in order, and they are the places where `p` holds. */
  ghost predicate PickedAt<T(!new)>(p: T -> bool, s: seq<T>, r: seq<T>, places: seq<nat>) {
    && |r| == |places|
    && (forall i, j :: 0 <= i < j < |places| ==> places[i] < places[j])
    && (forall i :: 0 <= i < |places| ==> places[i] < |s| && r[i] == s[places[i]])
    && (forall k: nat :: k in places <==> k < |s| && p(s[k]))
  }

  lemma {:induction false} FilterPicks<T(!new)>(p: T -> bool, s: seq<T>) returns (places: seq<nat>)
    ensures PickedAt(p, s, Filter(p, s), places)
  {
    hide Filter, PickedAt;
    places := [];
    if s == [] {
      FilterEmpty(p);
      NothingPicked(p);
    } else {
      var n := |s| - 1;
      FilterNext(p, s, n);
      assert s[..n + 1] == s && s[..n] + [s[n]] == s;
      places := FilterPicks(p, s[..n]);
      PickedNext(p, s[..n], s[n], Filter(p, s[..n]), places);
      if p(s[n]) {
        places := places + [n];
      }
    }
  }

  lemma NothingPicked<T(!new)>(p: T -> bool)
    ensures PickedAt(p, [], [], [])
  {
  }

  lemma PickedNext<T(!new)>(p: T -> bool, s: seq<T>, x: T, r: seq<T>, places: seq<nat>)
    requires PickedAt(p, s, r, places)
    ensures if p(x) then PickedAt(p, s + [x], r + [x], places + [|s|]) else PickedAt(p, s + [x], r, places)
  {
    var longer, more := s + [x], places + [|s|];
    assert forall k :: 0 <= k < |s| ==> longer[k] == s[k];
    assert forall k: nat :: k in more <==> k in places || k == |s|;
    forall i | 0 <= i < |places| ensures places[i] < |s| {
      assert places[i] in places;
    }
  }

  lemma FilterNext<T(!new)>(p: T -> bool, s: seq<T>, k: nat)
    requires k < |s|
    ensures Filter(p, s[..k + 1]) == if p(s[k]) then Filter(p, s[..k]) + [s[k]] else Filter(p, s[..k])
  {
    assert s[..k + 1] == s[..k] + [s[k]];
    FilterConcat(p, s[..k], [s[k]]);
  }

  lemma FilterCons<T(!new)>(p: T -> bool, x: T, s: seq<T>)
    ensures Filter(p, [x] + s) == if p(x) then [x] + Filter(p, s) else Filter(p, s)
  {
    assert ([x] + s)[1..] == s;
  }

  lemma FilterEmpty<T(!new)>(p: T -> bool)
    ensures Filter(p, []) == []
  {
  }

  lemma {:induction false} FilterMultiplicity<T(!new)>(p: T -> bool, s: seq<T>, x: T)
    ensures multiset(Filter(p, s))[x] == if p(x) then multiset(s)[x] else 0
  {
    if s != [] {
      assert s == [s[0]] + s[1..];
      FilterMultiplicity(p, s[1..], x);
    }
  }

  lemma {:induction false} FilterCongruence<T(!new)>(p: T -> bool, q: T -> bool, s: seq<T>)
    requires forall x :: x in s ==> p(x) == q(x)
    ensures Filter(p, s) == Filter(q, s)
  {
    if s != [] {
      FilterCongruence(p, q, s[1..]);
    }
  }

  lemma FilterDistinct<T(!new)>(p: T -> bool, s: seq<T>)
    requires Distinct(s)
    ensures Distinct(Filter(p, s))
  {
    forall x ensures multiset(Filter(p, s))[x] <= 1 {
      FilterMultiplicity(p, s, x);
      DistinctMultiplicity(s, x);
    }
    MultiplicityDistinct(Filter(p, s));
  }

  lemma DistinctParts<T>(s: seq<T>, t: seq<T>)
    requires Distinct(s + t)
    ensures Distinct(s) && Distinct(t) && forall v :: v in t ==> v !in s
  {
    assert forall i :: 0 <= i < |s| ==> (s + t)[i] == s[i];
    assert forall j :: 0 <= j < |t| ==> (s + t)[|s| + j] == t[j];
    forall v | v in t ensures v !in s {
      var j :| 0 <= j < |t| && t[j] == v;
      assert forall i :: 0 <= i < |s| ==> (s + t)[i] != (s + t)[|s| + j];
    }
  }

  lemma DistinctConcat<T>(s: seq<T>, t: seq<T>)
    requires Distinct(s) && Distinct(t) && forall v :: v in t ==> v !in s
    ensures Distinct(s + t)
  {
    forall i, j | 0 <= i < j < |s + t| ensures (s + t)[i] != (s + t)[j] {
      if i < |s| <= j {
        assert (s + t)[i] in s && (s + t)[j] in t;
      }
    }
  }

  /** Code-point order on strings. */
  predicate StringLe(a: string, b: string) {
    a == [] || (b != [] && (a[0] < b[0] || (a[0] == b[0] && StringLe(a[1..], b[1..]))))
  }

  /** `a` comes before `b`: a shorter beginning of it, or with the smaller character where they first differ. */
  ghost predicate Smaller(a: string, b: string) {
    exists k :: 0 <= k <= |a| && k < |b| && a[..k] == b[..k] && (k == |a| || a[k] < b[k])
  }

  lemma NotSmaller(a: string)
    ensures !Smaller(a, a)
  {
  }

  lemma {:induction false} StringLeIff(a: string, b: string)
    ensures StringLe(a, b) <==> a == b || Smaller(a, b)
  {
    if a == [] {
      if b != [] {
        assert a[..0] == b[..0];
      }
    } else if b != [] {
      StringLeIff(a[1..], b[1..]);
      SmallerTail(a, b);
      assert a == [a[0]] + a[1..] && b == [b[0]] + b[1..];
    }
  }

  lemma SmallerTail(a: string, b: string)
    requires a != [] && b != []
    ensures Smaller(a, b) <==> a[0] < b[0] || (a[0] == b[0] && Smaller(a[1..], b[1..]))
  {
    if a[0] < b[0] {
      assert a[..0] == b[..0];
    } else if Smaller(a, b) {
      SmallerRest(a, b);
    } else if a[0] == b[0] && Smaller(a[1..], b[1..]) {
      SmallerWhole(a, b);
    }
  }

  lemma SmallerRest(a: string, b: string)
    requires a != [] && b != [] && Smaller(a, b) && a[0] >= b[0]
    ensures a[0] == b[0] && Smaller(a[1..], b[1..])
  {
    var k :| 0 <= k <= |a| && k < |b| && a[..k] == b[..k] && (k == |a| || a[k] < b[k]);
    assert k > 0;
    assert a[..k][0] == b[..k][0];
    assert a[1..][..k - 1] == a[..k][1..] && b[1..][..k - 1] == b[..k][1..];
  }

  lemma SmallerWhole(a: string, b: string)
    requires a != [] && b != [] && a[0] == b[0] && Smaller(a[1..], b[1..])
    ensures Smaller(a, b)
  {
    var s, t := a[1..], b[1..];
    var k :| 0 <= k <= |s| && k < |t| && s[..k] == t[..k] && (k == |s| || s[k] < t[k]);
    assert a[..k + 1] == [a[0]] + s[..k];
    assert b[..k + 1] == [b[0]] + t[..k];
  }

  lemma {:induction false} StringLeTotal(a: string, b: string)
    ensures StringLe(a, b) || StringLe(b, a)
    ensures StringLe(a, b) && StringLe(b, a) ==> a == b
  {
    if a != [] && b != [] {
      StringLeTotal(a[1..], b[1..]);
      assert a == [a[0]] + a[1..] && b == [b[0]] + b[1..];
    }
  }

  lemma {:induction false} StringLeTransitive(a: string, b: string, c: string)
    requires StringLe(a, b) && StringLe(b, c)
    ensures StringLe(a, c)
  {
    if a != [] && a[0] == b[0] == c[0] {
      StringLeTransitive(a[1..], b[1..], c[1..]);
    }
  }

  lemma StringOrder()
    ensures TotalPreorder(StringLe)
  {
    forall a: string, b: string
      ensures StringLe(a, b) || StringLe(b, a)
    {
      StringLeTotal(a, b);
    }
    forall a: string, b: string, c: string | StringLe(a, b) && StringLe(b, c) ensures StringLe(a, c) {
      StringLeTransitive(a, b, c);
    }
  }

  /** Dictionary order on lists of names: a proper prefix comes first, otherwise the first
      position where the lists differ decides. */
  ghost predicate LexLe(r: seq<string>, q: seq<string>) {
    r == [] || (q != [] && if r[0] == q[0] then LexLe(r[1..], q[1..]) else StringLe(r[0], q[0]))
  }

  lemma {:induction false} LexLeReflexive(r: seq<string>)
    ensures LexLe(r, r)
  {
    if r != [] {
      LexLeReflexive(r[1..]);
    }
  }

  lemma {:induction false} LexLeAntisymmetric(r: seq<string>, q: seq<string>)
    requires LexLe(r, q) && LexLe(q, r)
    ensures r == q
  {
    if r != [] && q != [] {
      if r[0] == q[0] {
        LexLeAntisymmetric(r[1..], q[1..]);
        assert r == [r[0]] + r[1..] && q == [q[0]] + q[1..];
      } else {
        StringLeTotal(r[0], q[0]);
      }
    }
  }

  /** `r` comes first: where the lists first differ, or by being a beginning of the other. */
  ghost predicate SmallerList(r: seq<string>, q: seq<string>) {
    exists k :: 0 <= k <= |r| && k < |q| && r[..k] == q[..k] && (k == |r| || Smaller(r[k], q[k]))
  }

  lemma {:induction false} LexLeMeans(r: seq<string>, q: seq<string>)
    requires LexLe(r, q)
    ensures r == q || SmallerList(r, q)
  {
    if r == [] {
      if q != [] {
        assert r[..0] == q[..0];
      }
    } else if r[0] == q[0] {
      LexLeMeans(r[1..], q[1..]);
      assert r == [r[0]] + r[1..] && q == [q[0]] + q[1..];
      if SmallerList(r[1..], q[1..]) {
        LongerList(r, q);
      }
    } else {
      StringLeIff(r[0], q[0]);
      assert r[..0] == q[..0];
    }
  }

  lemma LongerList(r: seq<string>, q: seq<string>)
    requires r != [] && q != [] && r[0] == q[0] && SmallerList(r[1..], q[1..])
    ensures SmallerList(r, q)
  {
    hide Smaller;
    var s, t := r[1..], q[1..];
    var k :| 0 <= k <= |s| && k < |t| && s[..k] == t[..k] && (k == |s| || Smaller(s[k], t[k]));
    assert r[..k + 1] == [r[0]] + s[..k];
    assert q[..k + 1] == [q[0]] + t[..k];
  }

  lemma {:induction false} LexLeAtFirstDifference(r: seq<string>, q: seq<string>, i: nat)
    requires i < |r| && i < |q| && r[..i] == q[..i] && r[i] != q[i] && StringLe(r[i], q[i])
    ensures LexLe(r, q)
  {
    if i > 0 {
      assert r[0] == r[..i][0] == q[..i][0] == q[0];
      assert r[1..][..i - 1] == r[..i][1..] && q[1..][..i - 1] == q[..i][1..];
      LexLeAtFirstDifference(r[1..], q[1..], i - 1);
    }
  }
}
