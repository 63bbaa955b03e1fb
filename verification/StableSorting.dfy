/** The stable sort of the JavaScript and Python libraries, for a "must come before" relation. */
module StableSorting {
  // Asymmetric, and whatever precedes b precedes anything that does not precede b.
  ghost predicate WeakOrder<T(!new)>(lt: (T, T) -> bool) {
    (forall a, b :: lt(a, b) ==> !lt(b, a)) &&
    (forall a, b, c :: lt(a, b) ==> lt(a, c) || lt(c, b))
  }

  ghost predicate Sorted<T(!new)>(lt: (T, T) -> bool, s: seq<T>) {
    forall i, j :: 0 <= i < j < |s| ==> !lt(s[j], s[i])
  }

  // x goes behind everything it need not precede.
  function Insert<T>(lt: (T, T) -> bool, s: seq<T>, x: T): seq<T> {
    if s != [] && lt(x, s[|s| - 1])
    then Insert(lt, s[..|s| - 1], x) + [s[|s| - 1]]
    else s + [x]
  }

  function Sort<T>(lt: (T, T) -> bool, s: seq<T>): seq<T> {
    if s == [] then [] else Insert(lt, Sort(lt, s[..|s| - 1]), s[|s| - 1])
  }

  lemma {:induction false} InsertKeeps<T(!new)>(lt: (T, T) -> bool, s: seq<T>, x: T)
    ensures multiset(Insert(lt, s, x)) == multiset(s) + multiset{x}
    ensures |Insert(lt, s, x)| == |s| + 1
    ensures WeakOrder(lt) && Sorted(lt, s) ==> Sorted(lt, Insert(lt, s, x))
  {
    if s != [] && lt(x, s[|s| - 1]) {
      var front, last := s[..|s| - 1], s[|s| - 1];
      assert s == front + [last];
      InsertKeeps(lt, front, x);
      var r := Insert(lt, front, x);
      if WeakOrder(lt) && Sorted(lt, s) {
        assert Sorted(lt, front);
        forall k | 0 <= k < |r| ensures !lt(last, r[k]) {
          assert r[k] in multiset(r);
          assert r[k] in multiset(front) + multiset{x};
          assert r[k] in front || r[k] == x;
        }
      }
    } else if WeakOrder(lt) && Sorted(lt, s) && s != [] {
      var last := s[|s| - 1];
      forall k | 0 <= k < |s| ensures !lt(x, s[k]) {
        assert !lt(last, s[k]);
      }
    }
  }

  lemma {:induction false} SortIsSortedPermutation<T(!new)>(lt: (T, T) -> bool, s: seq<T>)
    ensures multiset(Sort(lt, s)) == multiset(s)
    ensures |Sort(lt, s)| == |s|
    ensures WeakOrder(lt) ==> Sorted(lt, Sort(lt, s))
  {
    if s != [] {
      assert s == s[..|s| - 1] + [s[|s| - 1]];
      SortIsSortedPermutation(lt, s[..|s| - 1]);
      InsertKeeps(lt, Sort(lt, s[..|s| - 1]), s[|s| - 1]);
    }
  }

  lemma {:induction false} SortedIsFixed<T(!new)>(lt: (T, T) -> bool, s: seq<T>)
    requires Sorted(lt, s)
    ensures Sort(lt, s) == s
  {
    if s != [] {
      assert s == s[..|s| - 1] + [s[|s| - 1]];
      SortedIsFixed(lt, s[..|s| - 1]);
    }
  }

  // ---- Stability -----------------------------------------------------------

  // The elements the order does not tell apart from x, in their order in s.
  function Ties<T>(lt: (T, T) -> bool, s: seq<T>, x: T): seq<T> {
    if s == [] then []
    else
      var last := s[|s| - 1];
      Ties(lt, s[..|s| - 1], x) + (if !lt(last, x) && !lt(x, last) then [last] else [])
  }

  lemma {:induction false} InsertKeepsTies<T(!new)>(lt: (T, T) -> bool, s: seq<T>, y: T, x: T)
    requires WeakOrder(lt)
    ensures Ties(lt, Insert(lt, s, y), x) == Ties(lt, s + [y], x)
  {
    assert (s + [y])[..|s|] == s;
    if s != [] && lt(y, s[|s| - 1]) {
      var front, last := s[..|s| - 1], s[|s| - 1];
      InsertKeepsTies(lt, front, y, x);
      var r := Insert(lt, front, y);
      assert (r + [last])[..|r|] == r;
      assert (front + [y])[..|front|] == front;
    }
  }

  // Elements that tie stay in their original order.
  lemma {:induction false} SortIsStable<T(!new)>(lt: (T, T) -> bool, s: seq<T>, x: T)
    requires WeakOrder(lt)
    ensures Ties(lt, Sort(lt, s), x) == Ties(lt, s, x)
  {
    if s != [] {
      var front, last := s[..|s| - 1], s[|s| - 1];
      SortIsStable(lt, front, x);
      InsertKeepsTies(lt, Sort(lt, front), last, x);
      assert (Sort(lt, front) + [last])[..|Sort(lt, front)|] == Sort(lt, front);
    }
  }

  // ---- Selection: the sorted order, read from the front --------------------

  // The earliest of the elements nothing must precede.
  ghost predicate IsFirst<T(!new)>(lt: (T, T) -> bool, s: seq<T>, m: nat) {
    m < |s| &&
    (forall i :: 0 <= i < |s| ==> !lt(s[i], s[m])) &&
    (forall i :: 0 <= i < m ==> lt(s[m], s[i]))
  }

  function Without<T>(s: seq<T>, m: nat): seq<T>
    requires m < |s|
  {
    s[..m] + s[m + 1..]
  }

  lemma {:induction false} InsertBehindHead<T(!new)>(lt: (T, T) -> bool, h: T, s: seq<T>, x: T)
    requires !lt(x, h)
    ensures Insert(lt, [h] + s, x) == [h] + Insert(lt, s, x)
  {
    if s != [] && lt(x, s[|s| - 1]) {
      assert ([h] + s)[..|s|] == [h] + s[..|s| - 1];
      InsertBehindHead(lt, h, s[..|s| - 1], x);
    }
  }

  lemma {:induction false} InsertAtHead<T(!new)>(lt: (T, T) -> bool, s: seq<T>, x: T)
    requires forall i :: 0 <= i < |s| ==> lt(x, s[i])
    ensures Insert(lt, s, x) == [x] + s
  {
    if s != [] {
      InsertAtHead(lt, s[..|s| - 1], x);
    }
  }

  lemma SortedElements<T(!new)>(lt: (T, T) -> bool, s: seq<T>, i: nat)
    requires i < |Sort(lt, s)|
    ensures Sort(lt, s)[i] in s
  {
    SortIsSortedPermutation(lt, s);
    assert Sort(lt, s)[i] in multiset(Sort(lt, s));
  }

  // Taking the first element out and sorting the rest gives the same order.
  lemma {:induction false} SortSelectsFirst<T(!new)>(lt: (T, T) -> bool, s: seq<T>, m: nat)
    requires IsFirst(lt, s, m)
    ensures Sort(lt, s) == [s[m]] + Sort(lt, Without(s, m))
  {
    var front, last := s[..|s| - 1], s[|s| - 1];
    if m == |s| - 1 {
      assert Without(s, m) == front;
      forall i | 0 <= i < |Sort(lt, front)| ensures lt(last, Sort(lt, front)[i]) {
        SortedElements(lt, front, i);
      }
      InsertAtHead(lt, Sort(lt, front), last);
    } else {
      var rest := Without(front, m);
      assert front[m] == s[m];
      SortSelectsFirst(lt, front, m);
      InsertBehindHead(lt, s[m], Sort(lt, rest), last);
      assert Without(s, m) == rest + [last];
      assert (rest + [last])[..|rest|] == rest;
    }
  }

  // ---- Sorting a renamed sequence -------------------------------------------

  function Map<T, U>(f: T -> U, s: seq<T>): (r: seq<U>)
    ensures |r| == |s| && forall i :: 0 <= i < |s| ==> r[i] == f(s[i])
  {
    seq(|s|, i requires 0 <= i < |s| => f(s[i]))
  }

  lemma {:induction false} InsertCommutes<T(!new), U(!new)>(lt: (T, T) -> bool, lu: (U, U) -> bool, f: T -> U, s: seq<T>, x: T)
    requires forall a, b :: lu(f(a), f(b)) == lt(a, b)
    ensures Insert(lu, Map(f, s), f(x)) == Map(f, Insert(lt, s, x))
  {
    if s != [] && lt(x, s[|s| - 1]) {
      assert Map(f, s)[..|s| - 1] == Map(f, s[..|s| - 1]);
      InsertCommutes(lt, lu, f, s[..|s| - 1], x);
    }
  }

  // A renaming that respects the order commutes with sorting.
  lemma {:induction false} SortCommutes<T(!new), U(!new)>(lt: (T, T) -> bool, lu: (U, U) -> bool, f: T -> U, s: seq<T>)
    requires forall a, b :: lu(f(a), f(b)) == lt(a, b)
    ensures Sort(lu, Map(f, s)) == Map(f, Sort(lt, s))
  {
    if s != [] {
      assert Map(f, s)[..|s| - 1] == Map(f, s[..|s| - 1]);
      SortCommutes(lt, lu, f, s[..|s| - 1]);
      InsertCommutes(lt, lu, f, Sort(lt, s[..|s| - 1]), s[|s| - 1]);
    }
  }
}
