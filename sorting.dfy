/** `Array.prototype.sort` with a numeric comparator, which ECMAScript
    requires to be stable. `SortBy` is the specification (a stable insertion
    sort that inserts each element from the right); `SortInPlace` is the
    in-place algorithm, proved to produce exactly `SortBy` of the old
    contents. */
module Sorting {
  import opened Seqs

  /** With comparator `key(a) - key(b)` (ascending) or `key(b) - key(a)`
      (descending): the comparator is positive on `(y, x)`, so `y` must be
      placed after `x`. */
  predicate Outranks<T>(key: T -> int, asc: bool, y: T, x: T)
  {
    if asc then key(y) > key(x) else key(y) < key(x)
  }

  /** No element is placed before one that it must follow. */
  predicate Ordered<T>(s: seq<T>, key: T -> int, asc: bool)
  {
    forall i, j :: 0 <= i < j < |s| ==> !Outranks(key, asc, s[i], s[j])
  }

  /** Inserts `x` into `s`, passing from the right only the elements that
      must follow `x`. */
  function Insert<T>(s: seq<T>, x: T, key: T -> int, asc: bool): (r: seq<T>)
    ensures |r| == |s| + 1
  {
    if s == [] || !Outranks(key, asc, s[|s| - 1], x) then s + [x]
    else Insert(s[..|s| - 1], x, key, asc) + [s[|s| - 1]]
  }

  /** Inserting adds exactly `x`. */
  lemma {:induction false} InsertPermutation<T>(s: seq<T>, x: T, key: T -> int, asc: bool)
    ensures multiset(Insert(s, x, key, asc)) == multiset(s) + multiset{x}
  {
    if s != [] && Outranks(key, asc, s[|s| - 1], x) {
      assert s == s[..|s| - 1] + [s[|s| - 1]];
      InsertPermutation(s[..|s| - 1], x, key, asc);
    }
  }

  /** Inserting into an ordered sequence keeps it ordered. */
  lemma {:induction false} InsertOrdered<T>(s: seq<T>, x: T, key: T -> int, asc: bool)
    requires Ordered(s, key, asc)
    ensures Ordered(Insert(s, x, key, asc), key, asc)
  {
    var r := Insert(s, x, key, asc);
    if s == [] || !Outranks(key, asc, s[|s| - 1], x) {
      assert r == s + [x];
      forall i | 0 <= i < |s|
        ensures !Outranks(key, asc, s[i], x)
      {
        if i < |s| - 1 {
          assert !Outranks(key, asc, s[i], s[|s| - 1]);
        }
      }
    } else {
      var init, last := s[..|s| - 1], s[|s| - 1];
      InsertOrdered(init, x, key, asc);
      var w := Insert(init, x, key, asc);
      InsertPermutation(init, x, key, asc);
      assert r == w + [last];
      forall k | 0 <= k < |w|
        ensures !Outranks(key, asc, w[k], last)
      {
        assert w[k] in multiset(w);
        if w[k] != x {
          assert w[k] in init;
          var m :| 0 <= m < |init| && init[m] == w[k];
          assert s[m] == w[k];
        }
      }
    }
  }

  /** The stable sort of `s`. */
  function SortBy<T>(s: seq<T>, key: T -> int, asc: bool): (r: seq<T>)
    ensures |r| == |s|
  {
    if s == [] then []
    else Insert(SortBy(s[..|s| - 1], key, asc), s[|s| - 1], key, asc)
  }

  /** The result of sorting is ordered. */
  lemma {:induction false} SortByOrders<T>(s: seq<T>, key: T -> int, asc: bool)
    ensures Ordered(SortBy(s, key, asc), key, asc)
  {
    if s != [] {
      SortByOrders(s[..|s| - 1], key, asc);
      InsertOrdered(SortBy(s[..|s| - 1], key, asc), s[|s| - 1], key, asc);
    }
  }

  /** Sorting only reorders: the result is a permutation of the input. */
  lemma {:induction false} SortByPermutation<T>(s: seq<T>, key: T -> int, asc: bool)
    ensures multiset(SortBy(s, key, asc)) == multiset(s)
  {
    if s != [] {
      var init := s[..|s| - 1];
      assert s == init + [s[|s| - 1]];
      SortByPermutation(init, key, asc);
      InsertPermutation(SortBy(init, key, asc), s[|s| - 1], key, asc);
    }
  }

  /** Sorting an already ordered sequence leaves it as it is. */
  lemma {:induction false} SortByKeepsOrdered<T>(s: seq<T>, key: T -> int, asc: bool)
    requires Ordered(s, key, asc)
    ensures SortBy(s, key, asc) == s
  {
    if s != [] {
      var init := s[..|s| - 1];
      assert Ordered(init, key, asc);
      SortByKeepsOrdered(init, key, asc);
      assert s == init + [s[|s| - 1]];
    }
  }

  /** Inserting `x` keeps the elements that share any one key in their
      order, with `x` after those of its own key. */
  lemma {:induction false} InsertStable<T(!new)>(s: seq<T>, x: T, key: T -> int, asc: bool, p: T -> bool, k: int)
    requires forall y :: p(y) == (key(y) == k)
    ensures Where(Insert(s, x, key, asc), p) == Where(s + [x], p)
  {
    if s != [] && Outranks(key, asc, s[|s| - 1], x) {
      var init, last := s[..|s| - 1], s[|s| - 1];
      var w := Insert(init, x, key, asc);
      var xs: seq<T> := if p(x) then [x] else [];
      var ls: seq<T> := if p(last) then [last] else [];
      assert xs == [] || ls == [];
      assert s == init + [last];
      calc {
        Where(Insert(s, x, key, asc), p);
        Where(w + [last], p);
        { WhereSnoc(w, last, p); }
        Where(w, p) + ls;
        { InsertStable(init, x, key, asc, p, k); WhereSnoc(init, x, p); }
        Where(init, p) + xs + ls;
        Where(init, p) + ls + xs;
        { WhereSnoc(init, last, p); }
        Where(s, p) + xs;
        { WhereSnoc(s, x, p); }
        Where(s + [x], p);
      }
    }
  }

  /** Stability: the sort keeps the elements that share any one key in
      their input order. */
  lemma {:induction false} SortByStable<T(!new)>(s: seq<T>, key: T -> int, asc: bool, p: T -> bool, k: int)
    requires forall y :: p(y) == (key(y) == k)
    ensures Where(SortBy(s, key, asc), p) == Where(s, p)
  {
    if s != [] {
      var init, x := s[..|s| - 1], s[|s| - 1];
      var sorted := SortBy(init, key, asc);
      assert s == init + [x];
      calc {
        Where(SortBy(s, key, asc), p);
        Where(Insert(sorted, x, key, asc), p);
        { InsertStable(sorted, x, key, asc, p, k); }
        Where(sorted + [x], p);
        { WhereSnoc(sorted, x, p); SortByStable(init, key, asc, p, k); }
        Where(init, p) + (if p(x) then [x] else []);
        { WhereSnoc(init, x, p); }
        Where(s, p);
      }
    }
  }

  /** `Insert` places `x` right after the last element that need not follow
      it, when every element from `j` on must follow it. */
  lemma {:induction false} InsertSplit<T>(s: seq<T>, x: T, j: nat, key: T -> int, asc: bool)
    requires j <= |s|
    requires j == 0 || !Outranks(key, asc, s[j - 1], x)
    requires forall k :: j <= k < |s| ==> Outranks(key, asc, s[k], x)
    ensures Insert(s, x, key, asc) == s[..j] + [x] + s[j..]
  {
    if j < |s| {
      var init := s[..|s| - 1];
      assert Outranks(key, asc, s[|s| - 1], x);
      assert Insert(s, x, key, asc) == Insert(init, x, key, asc) + [s[|s| - 1]];
      assert init[..j] == s[..j];
      InsertSplit(init, x, j, key, asc);
      assert s[j..] == init[j..] + [s[|s| - 1]];
    } else {
      assert s[..j] == s;
    }
  }

  /** One pass of insertion sort: moves `a[i]` left into the prefix
      `a[..i]`, leaving the elements after it alone. */
  method InsertAt<T>(a: array<T>, i: nat, key: T -> int, asc: bool)
    requires i < a.Length
    modifies a
    ensures a[..] == Insert(old(a[..i]), old(a[i]), key, asc) + old(a[i + 1..])
  {
    var x := a[i];
    ghost var prefix := a[..i];
    ghost var suffix := a[i + 1..];
    var j := i;
    while j > 0 && Outranks(key, asc, a[j - 1], x)
      invariant 0 <= j <= i
      invariant forall k :: 0 <= k < j ==> a[k] == prefix[k]
      invariant forall k :: j < k <= i ==> a[k] == prefix[k - 1]
      invariant forall k :: i < k < a.Length ==> a[k] == suffix[k - i - 1]
      invariant forall k :: j <= k < i ==> Outranks(key, asc, prefix[k], x)
    {
      a[j] := a[j - 1];
      j := j - 1;
    }
    a[j] := x;
    InsertSplit(prefix, x, j, key, asc);
    assert a[..] == prefix[..j] + [x] + prefix[j..] + suffix;
  }

  /** Sorting one more element is inserting it into the sorted prefix. */
  lemma SortByStep<T>(s: seq<T>, i: nat, key: T -> int, asc: bool)
    requires i < |s|
    ensures SortBy(s[..i + 1], key, asc) == Insert(SortBy(s[..i], key, asc), s[i], key, asc)
  {
    assert s[..i + 1][..i] == s[..i];
  }

  /** Reading back the parts of `sorted + s[i..]`. */
  lemma SplitAt<T>(whole: seq<T>, sorted: seq<T>, s: seq<T>, i: nat)
    requires i < |s| && |sorted| == i && whole == sorted + s[i..]
    ensures whole[..i] == sorted && whole[i] == s[i] && whole[i + 1..] == s[i + 1..]
  {
  }

  /** Sorts `a` in place, as `a.sort(comparator)` does. */
  method SortInPlace<T>(a: array<T>, key: T -> int, asc: bool)
    modifies a
    ensures a[..] == SortBy(old(a[..]), key, asc)
  {
    ghost var s := a[..];
    for i := 0 to a.Length
      invariant a[..] == SortBy(s[..i], key, asc) + s[i..]
    {
      SplitAt(a[..], SortBy(s[..i], key, asc), s, i);
      SortByStep(s, i, key, asc);
      InsertAt(a, i, key, asc);
    }
    assert s == s[..a.Length];
  }
}
