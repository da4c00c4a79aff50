/** A stand-in for sort.Slice, and the string order the source sorts keys by. */
module Sorting {

  // What sort.Slice demands of `less`: a strict weak order.
  ghost predicate WeakOrder<T(!new)>(less: (T, T) -> bool) {
    && (forall x, y :: less(x, y) ==> !less(y, x))
    && (forall x, y, z :: less(x, z) ==> less(x, y) || less(y, z))
  }

  ghost predicate Sorted<T>(s: seq<T>, less: (T, T) -> bool) {
    forall i, j :: 0 <= i < j < |s| ==> !less(s[j], s[i])
  }

  function Insert<T>(x: T, s: seq<T>, less: (T, T) -> bool): (r: seq<T>)
    ensures multiset(r) == multiset(s) + multiset{x} && |r| == |s| + 1
  {
    if s == [] || !less(s[0], x) then [x] + s
    else
      assert s == [s[0]] + s[1..];
      [s[0]] + Insert(x, s[1..], less)
  }

  function Sort<T>(s: seq<T>, less: (T, T) -> bool): (r: seq<T>)
    ensures multiset(r) == multiset(s) && |r| == |s|
  {
    if s == [] then []
    else
      assert s == [s[0]] + s[1..];
      Insert(s[0], Sort(s[1..], less), less)
  }

  lemma {:induction false} InsertSorted<T(!new)>(x: T, s: seq<T>, less: (T, T) -> bool)
    requires WeakOrder(less) && Sorted(s, less)
    ensures Sorted(Insert(x, s, less), less)
  {
    var r := Insert(x, s, less);
    if s == [] || !less(s[0], x) {
      forall j | 0 <= j < |s|
        ensures !less(s[j], x)
      {
        assert !less(s[j], s[0]);
      }
    } else {
      var tail := Insert(x, s[1..], less);
      InsertSorted(x, s[1..], less);
      forall j | 0 <= j < |tail|
        ensures !less(tail[j], s[0])
      {
        assert tail[j] in multiset(tail);
        if tail[j] != x {
          assert tail[j] in multiset(s[1..]);
          var k :| 0 <= k < |s[1..]| && s[1..][k] == tail[j];
          assert s[k + 1] == tail[j];
        }
      }
    }
  }

  lemma {:induction false} SortSorts<T(!new)>(s: seq<T>, less: (T, T) -> bool)
    requires WeakOrder(less)
    ensures Sorted(Sort(s, less), less)
  {
    if s != [] {
      SortSorts(s[1..], less);
      InsertSorted(s[0], Sort(s[1..], less), less);
    }
  }

  // Any two different members are ordered one way or the other.
  ghost predicate TotalOn<T(!new)>(s: multiset<T>, less: (T, T) -> bool) {
    forall x, y :: x in s && y in s && x != y ==> less(x, y) || less(y, x)
  }

  // Then there is only one sorted arrangement.
  lemma {:induction false} SortedUnique<T(!new)>(s: seq<T>, t: seq<T>, less: (T, T) -> bool)
    requires WeakOrder(less) && TotalOn(multiset(s), less)
    requires Sorted(s, less) && Sorted(t, less) && multiset(s) == multiset(t)
    ensures s == t
  {
    hide WeakOrder, TotalOn, Sorted;
    assert |multiset(s)| == |s| && |multiset(t)| == |t|;
    if s != [] {
      SameLeast(s, t, less);
      SortedTail(s, less);
      SortedTail(t, less);
      TotalOnFewer(multiset(s[1..]), multiset(s), less);
      SortedUnique(s[1..], t[1..], less);
    }
  }

  lemma SortedTail<T(!new)>(s: seq<T>, less: (T, T) -> bool)
    requires s != [] && Sorted(s, less)
    ensures Sorted(s[1..], less) && s == [s[0]] + s[1..] && multiset(s[1..]) == multiset(s) - multiset{s[0]}
  {
    assert s == [s[0]] + s[1..];
  }

  lemma TotalOnFewer<T(!new)>(a: multiset<T>, b: multiset<T>, less: (T, T) -> bool)
    requires a <= b && TotalOn(b, less)
    ensures TotalOn(a, less)
  {
  }

  lemma SameLeast<T(!new)>(s: seq<T>, t: seq<T>, less: (T, T) -> bool)
    requires WeakOrder(less) && TotalOn(multiset(s), less) && s != [] && t != []
    requires Sorted(s, less) && Sorted(t, less) && multiset(s) == multiset(t)
    ensures s[0] == t[0]
  {
    assert s[0] in multiset(t) && t[0] in multiset(s);
    var i :| 0 <= i < |t| && t[i] == s[0];
    var j :| 0 <= j < |s| && s[j] == t[0];
    assert i > 0 ==> !less(t[i], t[0]);
    assert j > 0 ==> !less(s[j], s[0]);
  }

  // Sorting one more element is inserting it.
  lemma SortSnoc<T(!new)>(s: seq<T>, x: T, less: (T, T) -> bool)
    requires WeakOrder(less) && TotalOn(multiset(s + [x]), less)
    ensures Sort(s + [x], less) == Insert(x, Sort(s, less), less)
  {
    SortSorts(s + [x], less);
    SortSorts(s, less);
    InsertSorted(x, Sort(s, less), less);
    SortedUnique(Sort(s + [x], less), Insert(x, Sort(s, less), less), less);
  }

  function Take<T>(s: seq<T>, k: nat): seq<T> {
    if |s| > k then s[..k] else s
  }

  // Sort, then truncate.
  function Top<T>(s: seq<T>, k: nat, less: (T, T) -> bool): seq<T> {
    Take(Sort(s, less), k)
  }

  lemma {:induction false} TakeInsert<T>(x: T, s: seq<T>, k: nat, less: (T, T) -> bool)
    ensures Take(Insert(x, s, less), k) == Take(Insert(x, Take(s, k), less), k)
  {
    hide Insert, Take;
    if s == [] || k == 0 {
      TakeNothing(s, Insert(x, s, less), Insert(x, Take(s, k), less), k);
    } else {
      var t := Take(s, k);
      TakeHead(s, k);
      InsertUnfold(x, s, less);
      InsertUnfold(x, t, less);
      if !less(s[0], x) {
        TakeCons(x, s, k);
        TakeCons(x, t, k);
        TakeTwice(s, k);
      } else {
        TakeInsert(x, s[1..], k - 1, less);
        TakeCons(s[0], Insert(x, s[1..], less), k);
        TakeCons(s[0], Insert(x, t[1..], less), k);
      }
    }
  }

  lemma InsertUnfold<T>(x: T, s: seq<T>, less: (T, T) -> bool)
    requires s != []
    ensures Insert(x, s, less) == if less(s[0], x) then [s[0]] + Insert(x, s[1..], less) else [x] + s
  {
  }

  lemma TakeNothing<T>(s: seq<T>, a: seq<T>, b: seq<T>, k: nat)
    requires s == [] || k == 0
    ensures s == [] ==> Take(s, k) == s
    ensures k == 0 ==> Take(a, k) == Take(b, k)
  {
  }

  lemma TakeHead<T>(s: seq<T>, k: nat)
    requires s != [] && k > 0
    ensures Take(s, k) != [] && Take(s, k)[0] == s[0] && Take(s, k)[1..] == Take(s[1..], k - 1)
  {
  }

  lemma TakeTwice<T>(s: seq<T>, k: nat)
    requires k > 0
    ensures Take(Take(s, k), k - 1) == Take(s, k - 1)
  {
  }

  lemma TakeCons<T>(y: T, s: seq<T>, k: nat)
    requires k > 0
    ensures Take([y] + s, k) == [y] + Take(s, k - 1)
  {
  }

  // Truncating after every page loses nothing that a later page could have kept.
  lemma {:induction false} TopOfPages<T(!new)>(a: seq<T>, b: seq<T>, k: nat, less: (T, T) -> bool)
    requires WeakOrder(less) && TotalOn(multiset(a + b), less)
    ensures Top(Top(a, k, less) + b, k, less) == Top(a + b, k, less)
    decreases |b|
  {
    hide WeakOrder, TotalOn, Sort, Insert, Take;
    var t := Top(a, k, less);
    if b == [] {
      assert a + b == a && t + b == t;
      TopAgain(a, k, less);
    } else {
      var b', x := b[..|b| - 1], b[|b| - 1];
      assert a + b == (a + b') + [x] && t + b == (t + b') + [x];
      TopMembers(a, k, less);
      TotalOnFewer(multiset(a + b'), multiset(a + b), less);
      TotalOnFewer(multiset(t + b), multiset(a + b), less);
      TopOfPages(a, b', k, less);
      SortSnoc(a + b', x, less);
      SortSnoc(t + b', x, less);
      TakeInsert(x, Sort(a + b', less), k, less);
      TakeInsert(x, Sort(t + b', less), k, less);
    }
  }

  lemma TopAgain<T(!new)>(a: seq<T>, k: nat, less: (T, T) -> bool)
    requires WeakOrder(less) && TotalOn(multiset(a), less)
    ensures Top(Top(a, k, less), k, less) == Top(a, k, less)
  {
    hide WeakOrder, TotalOn;
    var t := Top(a, k, less);
    TopMembers(a, k, less);
    TotalOnFewer(multiset(t), multiset(a), less);
    SortSorts(a, less);
    SortSorts(t, less);
    SortedUnique(Sort(t, less), t, less);
  }

  lemma TopMembers<T(!new)>(a: seq<T>, k: nat, less: (T, T) -> bool)
    ensures multiset(Top(a, k, less)) <= multiset(a)
  {
    var s := Sort(a, less);
    if |s| > k {
      assert s == s[..k] + s[k..];
    }
  }

  // Go's order on strings.
  predicate StringLess(a: string, b: string) {
    b != [] && (a == [] || a[0] < b[0] || (a[0] == b[0] && StringLess(a[1..], b[1..])))
  }

  // The strings agree up to some position, where `a` ends or has the smaller character.
  ghost predicate FirstDifference(a: string, b: string, k: nat) {
    k <= |a| && k < |b| && a[..k] == b[..k] && (k < |a| ==> a[k] < b[k])
  }

  lemma {:induction false} StringLessExactly(a: string, b: string)
    ensures StringLess(a, b) <==> exists k: nat :: FirstDifference(a, b, k)
  {
    if a == [] || b == [] || a[0] != b[0] {
      assert StringLess(a, b) ==> FirstDifference(a, b, 0);
      assert forall k: nat :: FirstDifference(a, b, k) && k > 0 ==> a[..k][0] == b[..k][0];
    } else {
      StringLessExactly(a[1..], b[1..]);
      forall k: nat
        ensures FirstDifference(a[1..], b[1..], k) <==> FirstDifference(a, b, k + 1)
      {
        if k <= |a[1..]| && k < |b[1..]| {
          assert a[..k + 1] == [a[0]] + a[1..][..k] && b[..k + 1] == [b[0]] + b[1..][..k];
          assert a[..k + 1][1..] == a[1..][..k] && b[..k + 1][1..] == b[1..][..k];
        }
      }
      if StringLess(a, b) {
        var k: nat :| FirstDifference(a[1..], b[1..], k);
        assert FirstDifference(a, b, k + 1);
      } else if k: nat :| FirstDifference(a, b, k) {
        assert FirstDifference(a[1..], b[1..], k - 1) by {
          assert k != 0;
          assert FirstDifference(a, b, (k - 1) + 1);
        }
      }
    }
  }

  lemma {:induction false} StringLessAsymmetric(a: string, b: string)
    requires StringLess(a, b)
    ensures !StringLess(b, a)
  {
    if a != [] && b != [] && a[0] == b[0] {
      StringLessAsymmetric(a[1..], b[1..]);
    }
  }

  lemma {:induction false} StringLessTotal(a: string, b: string)
    ensures a == b || StringLess(a, b) || StringLess(b, a)
  {
    if a != [] && b != [] && a[0] == b[0] {
      StringLessTotal(a[1..], b[1..]);
      assert a == [a[0]] + a[1..] && b == [b[0]] + b[1..];
    }
  }

  lemma {:induction false} StringLessCotransitive(a: string, b: string, c: string)
    requires StringLess(a, c)
    ensures StringLess(a, b) || StringLess(b, c)
  {
    if a != [] && b != [] && c != [] && a[0] == b[0] == c[0] {
      StringLessCotransitive(a[1..], b[1..], c[1..]);
    }
  }
}
