/** Byte-wise lexicographic order, and lists in strictly ascending key order. */
module Order {
  /** Go's `<` on strings and SQLite's BINARY collation: byte by byte, a proper prefix first. */
  predicate Less(a: string, b: string) {
    b != "" && (a == "" || a[0] < b[0] || (a[0] == b[0] && Less(a[1..], b[1..])))
  }

  /** The same by the first difference: after a common beginning of `k` bytes, `a` ends or has the smaller byte. */
  predicate DifferAt(a: string, b: string, k: nat) {
    k <= |a| && k <= |b| && a[..k] == b[..k] &&
    ((k == |a| && k < |b|) || (k < |a| && k < |b| && a[k] < b[k]))
  }

  ghost predicate Precedes(a: string, b: string) { exists k: nat :: DifferAt(a, b, k) }

  lemma DifferTail(a: string, b: string, k: nat)
    requires a != "" && b != "" && a[0] == b[0]
    ensures DifferAt(a, b, k + 1) <==> DifferAt(a[1..], b[1..], k)
  {
    if k < |a| && k < |b| {
      assert a[..k + 1] == [a[0]] + a[1..][..k] && b[..k + 1] == [b[0]] + b[1..][..k];
      assert a[..k + 1][1..] == a[1..][..k] && b[..k + 1][1..] == b[1..][..k];
    }
  }

  lemma DifferLater(a: string, b: string, k: nat)
    ensures DifferAt(a, b, k) && k > 0 ==> a != "" && b != "" && a[0] == b[0]
  {
    assert k > 0 && k <= |a| && k <= |b| ==> a[..k][0] == a[0] && b[..k][0] == b[0];
  }

  /** The recursive comparison is the order by the first difference. */
  lemma {:induction false} LessMeaning(a: string, b: string)
    ensures Less(a, b) <==> Precedes(a, b)
  {
    if a != "" && b != "" && a[0] == b[0] {
      LessMeaning(a[1..], b[1..]);
      if k: nat :| DifferAt(a[1..], b[1..], k) { DifferTail(a, b, k); }
      if k: nat :| DifferAt(a, b, k) {
        if k > 0 { DifferTail(a, b, k - 1); }
      }
    } else {
      assert Less(a, b) ==> DifferAt(a, b, 0);
      if k: nat :| DifferAt(a, b, k) { DifferLater(a, b, k); }
    }
  }

  lemma {:induction false} LessTotal(a: string, b: string)
    ensures Less(a, b) || a == b || Less(b, a)
    ensures !(Less(a, b) && Less(b, a)) && (Less(a, b) ==> a != b)
  {
    if a != "" && b != "" {
      LessTotal(a[1..], b[1..]);
      assert a == [a[0]] + a[1..] && b == [b[0]] + b[1..];
    }
  }

  lemma {:induction false} LessTransitive(a: string, b: string, c: string)
    requires Less(a, b) && Less(b, c)
    ensures Less(a, c)
  {
    if a != "" && a[0] == b[0] == c[0] { LessTransitive(a[1..], b[1..], c[1..]); }
  }

  predicate Ascending<T>(xs: seq<T>, key: T -> string) {
    forall i, j :: 0 <= i < j < |xs| ==> Less(key(xs[i]), key(xs[j]))
  }

  lemma AscendingTail<T>(xs: seq<T>, key: T -> string)
    requires xs != [] && Ascending(xs, key)
    ensures forall x :: x in xs[1..] <==> x in xs && x != xs[0]
  {
    LessTotal(key(xs[0]), key(xs[0]));
    assert xs == [xs[0]] + xs[1..];
    assert xs[0] !in xs[1..];
  }

  /** A strictly ascending list is determined by its elements: there is one sorted answer. */
  lemma {:induction false} AscendingUnique<T>(xs: seq<T>, ys: seq<T>, key: T -> string)
    requires Ascending(xs, key) && Ascending(ys, key)
    requires forall x :: x in xs <==> x in ys
    ensures xs == ys
  {
    assert |ys| > 0 ==> ys[0] in xs;
    if xs != [] {
      assert xs[0] in ys;
      var j :| 0 <= j < |ys| && ys[j] == xs[0];
      assert ys[0] in xs;
      var i :| 0 <= i < |xs| && xs[i] == ys[0];
      LessTotal(key(xs[0]), key(ys[0]));
      assert xs[0] == ys[0];
      AscendingTail(xs, key);
      AscendingTail(ys, key);
      AscendingUnique(xs[1..], ys[1..], key);
      assert xs == [xs[0]] + xs[1..] && ys == [ys[0]] + ys[1..];
    }
  }

  function Insert<T>(x: T, xs: seq<T>, key: T -> string): seq<T> {
    if xs == [] then [x]
    else if Less(key(x), key(xs[0])) then [x] + xs
    else [xs[0]] + Insert(x, xs[1..], key)
  }

  /** Sorting by key. Keys are distinct wherever the registries sort, so stability does not matter. */
  function Sort<T>(xs: seq<T>, key: T -> string): seq<T> {
    if xs == [] then [] else Insert(xs[|xs| - 1], Sort(xs[..|xs| - 1], key), key)
  }

  lemma {:induction false} InsertElements<T>(x: T, xs: seq<T>, key: T -> string)
    ensures multiset(Insert(x, xs, key)) == multiset(xs) + multiset{x}
  {
    if xs != [] {
      assert xs == [xs[0]] + xs[1..];
      if !Less(key(x), key(xs[0])) { InsertElements(x, xs[1..], key); }
    }
  }

  lemma {:induction false} SortElements<T>(xs: seq<T>, key: T -> string)
    ensures multiset(Sort(xs, key)) == multiset(xs)
  {
    if xs != [] {
      var init, last := xs[..|xs| - 1], xs[|xs| - 1];
      assert xs == init + [last];
      SortElements(init, key);
      InsertElements(last, Sort(init, key), key);
    }
  }

  lemma {:induction false} InsertAscending<T>(x: T, xs: seq<T>, key: T -> string)
    requires Ascending(xs, key)
    requires forall y :: y in xs ==> key(y) != key(x)
    ensures Ascending(Insert(x, xs, key), key)
  {
    if xs != [] {
      LessTotal(key(x), key(xs[0]));
      assert xs[0] in xs;
      if Less(key(x), key(xs[0])) {
        forall j | 1 <= j < |xs| ensures Less(key(x), key(xs[j])) {
          LessTransitive(key(x), key(xs[0]), key(xs[j]));
        }
      } else {
        var rest := Insert(x, xs[1..], key);
        InsertAscending(x, xs[1..], key);
        InsertElements(x, xs[1..], key);
        forall j | 0 <= j < |rest| ensures Less(key(xs[0]), key(rest[j])) {
          assert rest[j] in multiset(rest);
          if rest[j] != x { assert rest[j] in xs[1..]; }
        }
      }
    }
  }

  predicate DistinctKeys<T>(xs: seq<T>, key: T -> string) {
    forall i, j :: 0 <= i < j < |xs| ==> key(xs[i]) != key(xs[j])
  }

  lemma {:induction false} SortAscending<T>(xs: seq<T>, key: T -> string)
    requires DistinctKeys(xs, key)
    ensures Ascending(Sort(xs, key), key)
  {
    if xs != [] {
      var init, last := xs[..|xs| - 1], xs[|xs| - 1];
      SortAscending(init, key);
      SortElements(init, key);
      forall y | y in Sort(init, key) ensures key(y) != key(last) {
        assert y in multiset(init);
      }
      InsertAscending(last, Sort(init, key), key);
    }
  }

  /** Whatever the order an enumeration arrives in, sorting it gives the same list. */
  lemma SortCanonical<T>(xs: seq<T>, ys: seq<T>, key: T -> string)
    requires DistinctKeys(xs, key) && DistinctKeys(ys, key)
    requires forall x :: x in xs <==> x in ys
    ensures Sort(xs, key) == Sort(ys, key)
  {
    SortAscending(xs, key);
    SortAscending(ys, key);
    SortElements(xs, key);
    SortElements(ys, key);
    forall x ensures x in Sort(xs, key) <==> x in Sort(ys, key) {
      assert x in Sort(xs, key) <==> x in multiset(Sort(xs, key));
      assert x in Sort(ys, key) <==> x in multiset(Sort(ys, key));
      assert x in xs <==> x in multiset(xs);
      assert x in ys <==> x in multiset(ys);
    }
    AscendingUnique(Sort(xs, key), Sort(ys, key), key);
  }

  /** In the order of the keys by their first differences. */
  ghost predicate InOrder<T>(xs: seq<T>, key: T -> string) {
    forall i, j :: 0 <= i < j < |xs| ==> Precedes(key(xs[i]), key(xs[j]))
  }

  lemma AscendingMeaning<T>(xs: seq<T>, key: T -> string)
    ensures Ascending(xs, key) <==> InOrder(xs, key)
  {
    forall i, j | 0 <= i < j < |xs| ensures Less(key(xs[i]), key(xs[j])) <==> Precedes(key(xs[i]), key(xs[j])) {
      LessMeaning(key(xs[i]), key(xs[j]));
    }
  }
}
