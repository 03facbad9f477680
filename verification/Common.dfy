/** Small value types and sequence facts shared by the other modules: optional values and results with an
    error message, the four content types in the order in which they are walked, items, and what it means
    for a sequence to be ascending or to hold nothing twice, for first occurrences and for insertion order. */
module Common {
  datatype Option<+T> = None | Some(value: T)

  datatype Result<+T> = Ok(value: T) | Err(error: string)

  /** The four content types of the catalog. */
  datatype ItemType = Movie | Series | Book | Game

  /** The fixed order in which the types are walked. */
  const ITEM_TYPES: seq<ItemType> := [Movie, Series, Book, Game]

  datatype Item = Item(itemType: ItemType, itemId: int)

  function Min(a: int, b: int): int { if a <= b then a else b }

  function Max(a: int, b: int): int { if a >= b then a else b }

  ghost predicate Distinct<T>(s: seq<T>) {
    forall i, j | 0 <= i < j < |s| :: s[i] != s[j]
  }

  ghost predicate Ascending(ids: seq<int>) {
    forall i, j | 0 <= i < j < |ids| :: ids[i] < ids[j]
  }

  lemma AscendingCons(x: int, rest: seq<int>)
    requires Ascending(rest) && forall y | y in rest :: x < y
    ensures Ascending([x] + rest)
  {
    forall i, j | 0 <= i < j < |[x] + rest|
      ensures ([x] + rest)[i] < ([x] + rest)[j]
    {
      assert rest[j - 1] in rest;
    }
  }

  lemma AscendingConcat(a: seq<int>, b: seq<int>, pivot: int)
    requires Ascending(a) && Ascending(b)
    requires (forall x | x in a :: x <= pivot) && forall x | x in b :: pivot < x
    ensures Ascending(a + b)
  {
    forall i, j | 0 <= i < j < |a + b|
      ensures (a + b)[i] < (a + b)[j]
    {
      if i < |a| <= j {
        assert a[i] in a && b[j - |a|] in b;
      }
    }
  }

  lemma NonEmptyHas<T>(s: seq<T>)
    ensures s == [] || exists x :: x in s
  {
    if s != [] {
      assert s[0] in s;
    }
  }

  lemma SomeMember<T>(s: set<T>) returns (x: T)
    requires s != {}
    ensures x in s
  {
    x :| x in s;
  }

  lemma SomeKey<K, V>(m: map<K, V>, v: V) returns (k: K)
    requires v in m.Values
    ensures k in m && m[k] == v
  {
    k :| k in m && m[k] == v;
  }

  lemma DistinctCons<T>(x: T, s: seq<T>)
    requires Distinct(s) && x !in s
    ensures Distinct([x] + s)
  {
    forall i, j | 0 <= i < j < |[x] + s|
      ensures ([x] + s)[i] != ([x] + s)[j]
    {
      assert ([x] + s)[j] == s[j - 1];
    }
  }

  lemma DistinctPrefix<T>(s: seq<T>, n: nat)
    requires Distinct(s) && n <= |s|
    ensures Distinct(s[..n])
    ensures n < |s| ==> s[n] !in s[..n]
  {
  }

  lemma DistinctTail<T>(s: seq<T>)
    requires Distinct(s) && s != []
    ensures Distinct(s[1..]) && s[0] !in s[1..]
  {
    forall i, j | 0 <= i < j < |s[1..]|
      ensures s[1..][i] != s[1..][j]
    {
      assert s[1..][i] == s[i + 1] && s[1..][j] == s[j + 1];
    }
  }

  /** Appends to `seen` the elements of `more` that are not there yet, first seen first:
      what updating an insertion-ordered dictionary with keys does. */
  function MergeNew<T(==)>(seen: seq<T>, more: seq<T>): seq<T>
    decreases |more|
  {
    if more == [] then seen
    else MergeNew(if more[0] in seen then seen else seen + [more[0]], more[1..])
  }

  lemma {:induction false} MergeNewConcat<T>(seen: seq<T>, a: seq<T>, b: seq<T>)
    ensures MergeNew(seen, a + b) == MergeNew(MergeNew(seen, a), b)
    decreases |a|
  {
    if a == [] {
      assert a + b == b;
    } else {
      assert (a + b)[1..] == a[1..] + b;
      MergeNewConcat(if a[0] in seen then seen else seen + [a[0]], a[1..], b);
    }
  }

  lemma {:induction false} MergeNewMember<T>(seen: seq<T>, more: seq<T>, x: T)
    ensures x in MergeNew(seen, more) <==> x in seen || x in more
    decreases |more|
  {
    if more != [] {
      assert more == [more[0]] + more[1..];
      MergeNewMember(if more[0] in seen then seen else seen + [more[0]], more[1..], x);
    }
  }

  lemma {:induction false} MergeNewExtends<T>(seen: seq<T>, more: seq<T>)
    ensures seen <= MergeNew(seen, more)
    ensures Distinct(seen) ==> Distinct(MergeNew(seen, more))
    decreases |more|
  {
    if more != [] {
      MergeNewExtends(if more[0] in seen then seen else seen + [more[0]], more[1..]);
    }
  }

  /** The position of the first occurrence of `x`. */
  ghost function FirstAt<T>(s: seq<T>, x: T): (k: nat)
    requires x in s
    ensures k < |s| && s[k] == x && x !in s[..k]
  {
    if s[0] == x then 0 else
      assert s == [s[0]] + s[1..];
      var k := FirstAt(s[1..], x) + 1;
      assert s[..k] == [s[0]] + s[1..][..k - 1];
      k
  }

  /** What is appended to an empty dictionary comes out in the order of first occurrence. */
  lemma {:induction false} MergeNewKeepsFirstOrder<T>(s: seq<T>, i: nat, j: nat)
    requires i < j < |MergeNew([], s)|
    ensures MergeNew([], s)[i] in s && MergeNew([], s)[j] in s
    ensures FirstAt(s, MergeNew([], s)[i]) < FirstAt(s, MergeNew([], s)[j])
    decreases |s|
  {
    var r := MergeNew([], s);
    assert r[i] in r && r[j] in r;
    MergeNewMember([], s, r[i]);
    MergeNewMember([], s, r[j]);
    assert s != [];
    var init, last := s[..|s| - 1], s[|s| - 1];
    assert s == init + [last];
    MergeNewConcat([], init, [last]);
    var q := MergeNew([], init);
    assert r == if last in q then q else q + [last];
    if j < |q| {
      assert q[i] in q && q[j] in q;
      MergeNewMember([], init, q[i]);
      MergeNewMember([], init, q[j]);
      MergeNewKeepsFirstOrder(init, i, j);
      FirstAtPrefix(init, last, r[i]);
      FirstAtPrefix(init, last, r[j]);
    } else {
      assert r == q + [last];
      assert r[i] == q[i];
      assert q[i] in q;
      MergeNewMember([], init, q[i]);
      FirstAtPrefix(init, last, r[i]);
      MergeNewMember([], init, last);
      assert last !in init && r[j] == last;
      assert forall k | 0 <= k < |init| :: s[k] == init[k];
    }
  }

  lemma FirstAtPrefix<T>(init: seq<T>, last: T, x: T)
    requires x in init
    ensures x in init + [last]
    ensures FirstAt(init + [last], x) == FirstAt(init, x)
  {
    var s := init + [last];
    var k, m := FirstAt(s, x), FirstAt(init, x);
    assert s[..m] == init[..m];
    assert s[m] == x && s[k] == x;
    assert x in s[..Min(k, m) + 1];
  }

  function Filter<T>(s: seq<T>, p: T -> bool): seq<T> {
    if s == [] then [] else (if p(s[0]) then [s[0]] else []) + Filter(s[1..], p)
  }

  lemma {:induction false} FilterMembers<T>(s: seq<T>, p: T -> bool)
    ensures forall x :: x in Filter(s, p) <==> x in s && p(x)
  {
    if s != [] {
      assert s == [s[0]] + s[1..];
      FilterMembers(s[1..], p);
    }
  }

  lemma {:induction false} FilterConcat<T>(a: seq<T>, b: seq<T>, p: T -> bool)
    ensures Filter(a + b, p) == Filter(a, p) + Filter(b, p)
  {
    if a == [] {
      assert a + b == b;
    } else {
      assert (a + b)[1..] == a[1..] + b;
      FilterConcat(a[1..], b, p);
      var head := if p(a[0]) then [a[0]] else [];
      assert head + (Filter(a[1..], p) + Filter(b, p)) == head + Filter(a[1..], p) + Filter(b, p);
    }
  }

  function Without<T>(s: seq<T>, i: nat): seq<T>
    requires i < |s|
  {
    s[..i] + s[i + 1..]
  }

  lemma FilterStep<T>(s: seq<T>, p: T -> bool)
    requires s != []
    ensures Filter(s, p) == (if p(s[0]) then [s[0]] else []) + Filter(s[1..], p)
  {
  }

  /** A sequence around one of its elements, seen through a filter. */
  lemma FilterAround<T>(before: seq<T>, x: T, after: seq<T>, p: T -> bool)
    ensures Filter(before + [x] + after, p)
         == Filter(before, p) + ((if p(x) then [x] else []) + Filter(after, p))
  {
    hide Filter;
    var tail := [x] + after;
    assert before + [x] + after == before + tail;
    assert tail[1..] == after;
    FilterConcat(before, tail, p);
    FilterStep(tail, p);
  }

  /** Removing one element from a sequence, seen through a filter. */
  lemma FilterWithout<T>(s: seq<T>, i: nat, p: T -> bool)
    requires i < |s|
    ensures !p(s[i]) ==> Filter(Without(s, i), p) == Filter(s, p)
    ensures p(s[i]) && (forall j | 0 <= j < i :: !p(s[j])) ==> [s[i]] + Filter(Without(s, i), p) == Filter(s, p)
  {
    hide Filter;
    var before, after := s[..i], s[i + 1..];
    assert s == before + [s[i]] + after;
    FilterAround(before, s[i], after, p);
    FilterConcat(before, after, p);
    if forall j | 0 <= j < i :: !p(s[j]) {
      FilterNone(before, p);
    }
    assert [] + Filter(after, p) == Filter(after, p);
  }

  lemma {:induction false} FilterNone<T>(s: seq<T>, p: T -> bool)
    requires forall j | 0 <= j < |s| :: !p(s[j])
    ensures Filter(s, p) == []
  {
    if s != [] {
      FilterNone(s[1..], p);
    }
  }

  function Flatten<T>(ss: seq<seq<T>>): seq<T> {
    if ss == [] then [] else ss[0] + Flatten(ss[1..])
  }

  lemma {:induction false} FlattenConcat<T>(a: seq<seq<T>>, b: seq<seq<T>>)
    ensures Flatten(a + b) == Flatten(a) + Flatten(b)
  {
    if a == [] {
      assert a + b == b;
    } else {
      assert (a + b)[1..] == a[1..] + b;
      FlattenConcat(a[1..], b);
      assert a[0] + (Flatten(a[1..]) + Flatten(b)) == a[0] + Flatten(a[1..]) + Flatten(b);
    }
  }

  lemma {:induction false} FlattenMembers<T>(ss: seq<seq<T>>)
    ensures forall x :: x in Flatten(ss) <==> exists i | 0 <= i < |ss| :: x in ss[i]
  {
    if ss != [] {
      FlattenMembers(ss[1..]);
      forall x
        ensures x in Flatten(ss) <==> exists i | 0 <= i < |ss| :: x in ss[i]
      {
        if i :| 0 <= i < |ss| && x in ss[i] {
          if i > 0 {
            assert ss[1..][i - 1] == ss[i];
          }
        }
        if x in Flatten(ss[1..]) {
          var i :| 0 <= i < |ss[1..]| && x in ss[1..][i];
          assert ss[i + 1] == ss[1..][i];
        }
      }
    }
  }
}
