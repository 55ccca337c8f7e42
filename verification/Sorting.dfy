/** Python's stable `sorted`, and the order of its string keys. */
module Sorting {

  /** Strings compare code point by code point. */
  predicate StringLe(a: string, b: string) {
    a == "" || (b != "" && (a[0] < b[0] || (a[0] == b[0] && StringLe(a[1..], b[1..]))))
  }

  lemma {:induction false} StringLeTotal(a: string, b: string)
    ensures StringLe(a, b) || StringLe(b, a)
    ensures StringLe(a, b) && StringLe(b, a) ==> a == b
  {
    if a != "" && b != "" && a[0] == b[0] {
      StringLeTotal(a[1..], b[1..]);
      assert a == [a[0]] + a[1..] && b == [b[0]] + b[1..];
    }
  }

  lemma {:induction false} StringLeTransitive(a: string, b: string, c: string)
    requires StringLe(a, b) && StringLe(b, c)
    ensures StringLe(a, c)
  {
    if a != "" && b != "" && c != "" && a[0] == b[0] == c[0] {
      StringLeTransitive(a[1..], b[1..], c[1..]);
    }
  }

  /** One string comes first when it is a prefix, or has the smaller character where they first differ. */
  lemma {:induction false} StringLeExactly(a: string, b: string)
    ensures StringLe(a, b) <==>
            a <= b || exists k | 0 <= k < |a| && k < |b| :: a[..k] == b[..k] && a[k] < b[k]
  {
    if a != "" && b != "" && a[0] == b[0] {
      StringLeExactly(a[1..], b[1..]);
      assert a == [a[0]] + a[1..] && b == [b[0]] + b[1..];
      if k :| 0 <= k < |a| && k < |b| && a[..k] == b[..k] && a[k] < b[k] {
        assert a[1..][..k - 1] == a[..k][1..] == b[..k][1..] == b[1..][..k - 1];
        assert a[1..][k - 1] < b[1..][k - 1];
      }
      if k :| 0 <= k < |a[1..]| && k < |b[1..]| && a[1..][..k] == b[1..][..k] && a[1..][k] < b[1..][k] {
        assert a[..k + 1] == [a[0]] + a[1..][..k] && b[..k + 1] == [b[0]] + b[1..][..k];
        assert a[k + 1] < b[k + 1];
      }
    } else if a != "" && b != "" {
      assert a[..0] == b[..0];
      if k :| 0 <= k < |a| && k < |b| && a[..k] == b[..k] && a[k] < b[k] {
        assert k > 0 ==> a[..k][0] == b[..k][0];
      }
    }
  }

  /** A key order: any two elements compare, and comparisons chain. */
  ghost predicate KeyOrder<T(!new)>(le: (T, T) -> bool) {
    && (forall a, b :: le(a, b) || le(b, a))
    && (forall a, b, c :: le(a, b) && le(b, c) ==> le(a, c))
  }

  /** Puts an element before the first one it may precede. */
  function Insert<T>(x: T, sorted: seq<T>, le: (T, T) -> bool): seq<T> {
    if sorted == [] || le(x, sorted[0]) then [x] + sorted
    else [sorted[0]] + Insert(x, sorted[1..], le)
  }

  function Sorted<T>(items: seq<T>, le: (T, T) -> bool): seq<T> {
    if items == [] then [] else Insert(items[0], Sorted(items[1..], le), le)
  }

  ghost predicate IsSorted<T>(items: seq<T>, le: (T, T) -> bool) {
    forall i, j | 0 <= i < j < |items| :: le(items[i], items[j])
  }

  lemma {:induction false} InsertKeeps<T>(x: T, sorted: seq<T>, le: (T, T) -> bool)
    ensures multiset(Insert(x, sorted, le)) == multiset{x} + multiset(sorted)
    ensures |Insert(x, sorted, le)| == |sorted| + 1
  {
    if sorted != [] && !le(x, sorted[0]) {
      InsertKeeps(x, sorted[1..], le);
      assert sorted == [sorted[0]] + sorted[1..];
    }
  }

  lemma {:induction false} InsertSorts<T(!new)>(x: T, sorted: seq<T>, le: (T, T) -> bool)
    requires KeyOrder(le) && IsSorted(sorted, le)
    ensures IsSorted(Insert(x, sorted, le), le)
  {
    if sorted != [] && !le(x, sorted[0]) {
      var tail := Insert(x, sorted[1..], le);
      InsertSorts(x, sorted[1..], le);
      InsertKeeps(x, sorted[1..], le);
      forall y <- tail ensures le(sorted[0], y) {
        assert y in multiset(tail);
      }
    }
  }

  /** Sorting rearranges the items, in key order. */
  lemma {:induction false} SortedSorts<T(!new)>(items: seq<T>, le: (T, T) -> bool)
    requires KeyOrder(le)
    ensures IsSorted(Sorted(items, le), le)
    ensures multiset(Sorted(items, le)) == multiset(items)
    ensures |Sorted(items, le)| == |items|
  {
    if items != [] {
      SortedSorts(items[1..], le);
      InsertKeeps(items[0], Sorted(items[1..], le), le);
      InsertSorts(items[0], Sorted(items[1..], le), le);
      assert items == [items[0]] + items[1..];
    }
  }

  /** The elements that satisfy a condition, in order. */
  function Only<T>(items: seq<T>, keep: T -> bool): seq<T> {
    if items == [] then []
    else if keep(items[0]) then [items[0]] + Only(items[1..], keep)
    else Only(items[1..], keep)
  }

  predicate SameKeyAs<T>(le: (T, T) -> bool, x: T, y: T) {
    le(x, y) && le(y, x)
  }

  /** An element is put before the kept ones, if it is kept itself. */
  lemma {:induction false} InsertIsStable<T>(x: T, sorted: seq<T>, le: (T, T) -> bool, keep: T -> bool)
    requires keep(x) ==> forall y <- sorted | keep(y) :: le(x, y)
    ensures Only(Insert(x, sorted, le), keep) == if keep(x) then [x] + Only(sorted, keep) else Only(sorted, keep)
  {
    if sorted == [] || le(x, sorted[0]) {
      assert ([x] + sorted)[1..] == sorted;
    } else {
      InsertIsStable(x, sorted[1..], le, keep);
      var tail := Insert(x, sorted[1..], le);
      assert ([sorted[0]] + tail)[1..] == tail;
    }
  }

  /** Sorting is stable: elements with one key keep their input order. */
  lemma {:induction false} SortedIsStable<T(!new)>(items: seq<T>, le: (T, T) -> bool, key: T)
    requires KeyOrder(le)
    ensures Only(Sorted(items, le), y => SameKeyAs(le, key, y)) == Only(items, y => SameKeyAs(le, key, y))
  {
    if items != [] {
      SortedIsStable(items[1..], le, key);
      InsertIsStable(items[0], Sorted(items[1..], le), le, y => SameKeyAs(le, key, y));
    }
  }

  lemma {:induction false} OnlySame<T>(items: seq<T>, f: T -> bool, g: T -> bool)
    requires forall x <- items :: f(x) == g(x)
    ensures Only(items, f) == Only(items, g)
  {
    if items != [] {
      OnlySame(items[1..], f, g);
    }
  }

  lemma {:induction false} OnlyMembers<T>(items: seq<T>, keep: T -> bool, x: T)
    ensures x in Only(items, keep) <==> x in items && keep(x)
    ensures multiset(Only(items, keep))[x] == if keep(x) then multiset(items)[x] else 0
  {
    if items != [] {
      OnlyMembers(items[1..], keep, x);
      assert items == [items[0]] + items[1..];
    }
  }

  /** A sorted list is its own sorting. */
  lemma {:induction false} SortedFixpoint<T(!new)>(items: seq<T>, le: (T, T) -> bool)
    requires KeyOrder(le) && IsSorted(items, le)
    ensures Sorted(items, le) == items
  {
    if items != [] {
      SortedFixpoint(items[1..], le);
      assert items == [items[0]] + items[1..];
    }
  }

  /** Different elements of the list have different keys. */
  ghost predicate DistinctKeys<T>(items: multiset<T>, le: (T, T) -> bool) {
    forall a <- items, b <- items | le(a, b) && le(b, a) :: a == b
  }

  /** With distinct keys there is only one sorted arrangement. */
  lemma {:induction false} SortedUnique<T(!new)>(a: seq<T>, b: seq<T>, le: (T, T) -> bool)
    requires IsSorted(a, le) && IsSorted(b, le) && KeyOrder(le)
    requires multiset(a) == multiset(b) && DistinctKeys(multiset(a), le)
    ensures a == b
  {
    hide KeyOrder;
    assert |a| == |multiset(a)| == |multiset(b)| == |b|;
    if a != [] {
      HeadsAgree(a, b, le);
      hide DistinctKeys;
      TailsAgree(a, b);
      TailSorted(a, le);
      TailSorted(b, le);
      DistinctTail(a, le);
      SortedUnique(a[1..], b[1..], le);
    }
  }

  lemma TailsAgree<T>(a: seq<T>, b: seq<T>)
    requires a != [] && b != [] && a[0] == b[0] && multiset(a) == multiset(b)
    ensures multiset(a[1..]) == multiset(b[1..])
    ensures a[1..] == b[1..] ==> a == b
  {
    assert a == [a[0]] + a[1..] && b == [b[0]] + b[1..];
    assert multiset(a[1..]) == multiset(a) - multiset{a[0]} == multiset(b[1..]);
  }

  lemma TailSorted<T>(a: seq<T>, le: (T, T) -> bool)
    requires a != [] && IsSorted(a, le)
    ensures IsSorted(a[1..], le)
  {
  }

  lemma DistinctTail<T>(a: seq<T>, le: (T, T) -> bool)
    requires a != [] && DistinctKeys(multiset(a), le)
    ensures DistinctKeys(multiset(a[1..]), le)
  {
    forall x <- multiset(a[1..]) ensures x in multiset(a) {
      assert x in a[1..];
    }
  }

  lemma HeadsAgree<T(!new)>(a: seq<T>, b: seq<T>, le: (T, T) -> bool)
    requires a != [] && b != [] && IsSorted(a, le) && IsSorted(b, le) && KeyOrder(le)
    requires multiset(a) == multiset(b) && DistinctKeys(multiset(a), le)
    ensures a[0] == b[0]
  {
    assert a[0] in multiset(b) && b[0] in multiset(a);
    HeadIsLeast(a, b[0], le);
    HeadIsLeast(b, a[0], le);
  }

  lemma HeadIsLeast<T(!new)>(s: seq<T>, x: T, le: (T, T) -> bool)
    requires IsSorted(s, le) && KeyOrder(le) && x in s
    ensures le(s[0], x)
  {
    var i :| 0 <= i < |s| && s[i] == x;
    if i == 0 {
      assert le(x, x) || le(x, x);
    }
  }

  /** `sorted` does not depend on the order of its input when keys are distinct. */
  lemma SortedOrderIndependent<T(!new)>(a: seq<T>, b: seq<T>, le: (T, T) -> bool)
    requires KeyOrder(le) && multiset(a) == multiset(b) && DistinctKeys(multiset(a), le)
    ensures Sorted(a, le) == Sorted(b, le)
  {
    SortedSorts(a, le);
    SortedSorts(b, le);
    SortedUnique(Sorted(a, le), Sorted(b, le), le);
  }

  lemma TwoPlaces<T>(a: seq<T>, x: T) returns (k: nat, l: nat)
    requires multiset(a)[x] >= 2
    ensures k < l < |a| && a[k] == a[l] == x
  {
    var p :| 0 <= p < |a| && a[p] == x;
    assert a == a[..p] + [x] + a[p + 1..];
    assert multiset(a)[x] == multiset(a[..p])[x] + 1 + multiset(a[p + 1..])[x];
    if x in a[..p] {
      k :| 0 <= k < p && a[..p][k] == x;
      l := p;
    } else {
      var q :| 0 <= q < |a[p + 1..]| && a[p + 1..][q] == x;
      k, l := p, p + 1 + q;
    }
  }

  lemma AtLeastTwice<T>(b: seq<T>, i: nat, j: nat)
    requires i < j < |b| && b[i] == b[j]
    ensures multiset(b)[b[i]] >= 2
  {
    assert b == b[..j] + [b[j]] + b[j + 1..];
    assert b[i] in b[..j];
  }

  /** A symmetric relation between all pairs of a list holds between all pairs of any rearrangement. */
  lemma PairwisePermuted<T(!new)>(a: seq<T>, b: seq<T>, related: (T, T) -> bool)
    requires IsSorted(a, related) && multiset(a) == multiset(b)
    requires forall x, y :: related(x, y) == related(y, x)
    ensures IsSorted(b, related)
  {
    forall i, j | 0 <= i < j < |b| ensures related(b[i], b[j]) {
      if b[i] == b[j] {
        AtLeastTwice(b, i, j);
        var k, l := TwoPlaces(a, b[i]);
        assert related(a[k], a[l]);
      } else {
        assert b[i] in multiset(a) && b[j] in multiset(a);
        var k :| 0 <= k < |a| && a[k] == b[i];
        var l :| 0 <= l < |a| && a[l] == b[j];
        if k < l {
          assert related(a[k], a[l]);
        } else {
          assert related(a[l], a[k]);
        }
      }
    }
  }
}
