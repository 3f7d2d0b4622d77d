/** Sorting by an explicit comparison, as the sources do with `sort_by`, `sort_by_key` and
  `Array.prototype.sort`, and the fact that makes results canonical: a sorted listing is
  determined by its contents. */
module Sorting {
  type Order<!T> = (T, T) -> bool

  ghost predicate TotalOrder<T(!new)>(le: Order<T>) {
    && (forall x :: le(x, x))
    && (forall x, y :: le(x, y) || le(y, x))
    && (forall x, y :: le(x, y) && le(y, x) ==> x == y)
    && (forall x, y, z :: le(x, y) && le(y, z) ==> le(x, z))
  }

  /** What a comparison must do for sorting to sort; different items may be level. */
  ghost predicate TotalPreorder<T(!new)>(le: Order<T>) {
    && (forall x, y :: le(x, y) || le(y, x))
    && (forall x, y, z :: le(x, y) && le(y, z) ==> le(x, z))
  }

  ghost predicate SortedBy<T>(le: Order<T>, s: seq<T>) {
    forall i, j :: 0 <= i < j < |s| ==> le(s[i], s[j])
  }

  ghost predicate NoDuplicates<T>(s: seq<T>) {
    forall i, j :: 0 <= i < j < |s| ==> s[i] != s[j]
  }

  ghost function Elements<T>(s: seq<T>): set<T> {
    set x | x in s
  }

  // ----- insertion sort -----

  function Insert<T>(le: Order<T>, x: T, s: seq<T>): (r: seq<T>)
    ensures multiset(r) == multiset(s) + multiset{x}
  {
    if s == [] then [x]
    else if le(x, s[0]) then [x] + s
    else
      assert s == [s[0]] + s[1..];
      [s[0]] + Insert(le, x, s[1..])
  }

  function Sort<T>(le: Order<T>, s: seq<T>): (r: seq<T>)
    ensures multiset(r) == multiset(s)
  {
    if s == [] then []
    else
      assert s == [s[0]] + s[1..];
      Insert(le, s[0], Sort(le, s[1..]))
  }

  lemma SameMembers<T>(a: seq<T>, b: seq<T>)
    requires multiset(a) == multiset(b)
    ensures forall x :: x in a <==> x in b
    ensures |a| == |b|
  {
    forall x ensures x in a <==> x in b {
      assert x in a <==> x in multiset(a);
      assert x in b <==> x in multiset(b);
    }
    assert |multiset(a)| == |a| && |multiset(b)| == |b|;
  }

  lemma {:induction false} InsertSorted<T(!new)>(le: Order<T>, x: T, s: seq<T>)
    requires TotalPreorder(le) && SortedBy(le, s)
    ensures SortedBy(le, Insert(le, x, s))
  {
    if s != [] && !le(x, s[0]) {
      InsertSorted(le, x, s[1..]);
      var r := Insert(le, x, s[1..]);
      forall y | y in r ensures le(s[0], y) {
        assert y in multiset(r);
        assert y == x || y in s[1..];
      }
    } else if s != [] {
      forall j | 0 <= j < |s| ensures le(x, s[j]) {
        assert le(s[0], s[j]);
      }
    }
  }

  lemma {:induction false} SortSorts<T(!new)>(le: Order<T>, s: seq<T>)
    requires TotalPreorder(le)
    ensures SortedBy(le, Sort(le, s)) && multiset(Sort(le, s)) == multiset(s)
  {
    if s != [] {
      SortSorts(le, s[1..]);
      InsertSorted(le, s[0], Sort(le, s[1..]));
    }
  }

  /** A sorted listing is determined by the multiset of what it lists, if nothing in it is level with
    anything else. */
  lemma {:induction false} SortedUniqueOn<T(!new)>(le: Order<T>, a: seq<T>, b: seq<T>)
    requires SortedBy(le, a) && SortedBy(le, b) && multiset(a) == multiset(b)
    requires forall x, y :: x in a && y in a && le(x, y) && le(y, x) ==> x == y
    ensures a == b
  {
    SameMembers(a, b);
    if a != [] {
      assert a[0] == b[0] by {
        assert a[0] in b && b[0] in a;
        var i :| 0 <= i < |b| && b[i] == a[0];
        var j :| 0 <= j < |a| && a[j] == b[0];
        assert i > 0 ==> le(b[0], a[0]);
        assert j > 0 ==> le(a[0], b[0]);
      }
      TailContents(a);
      TailContents(b);
      SortedUniqueOn(le, a[1..], b[1..]);
      assert a == [a[0]] + a[1..] && b == [b[0]] + b[1..];
    }
  }

  lemma SortedUnique<T(!new)>(le: Order<T>, a: seq<T>, b: seq<T>)
    requires TotalOrder(le) && SortedBy(le, a) && SortedBy(le, b)
    requires multiset(a) == multiset(b)
    ensures a == b
  {
    SortedUniqueOn(le, a, b);
  }

  lemma TailContents<T>(s: seq<T>)
    requires s != []
    ensures multiset(s[1..]) == multiset(s) - multiset{s[0]}
  {
    assert s == [s[0]] + s[1..];
  }

  lemma SortDeterminedByContents<T(!new)>(le: Order<T>, a: seq<T>, b: seq<T>)
    requires TotalOrder(le)
    ensures Sort(le, a) == Sort(le, b) <==> multiset(a) == multiset(b)
  {
    SortSorts(le, a);
    SortSorts(le, b);
    if multiset(a) == multiset(b) {
      SortedUnique(le, Sort(le, a), Sort(le, b));
    }
  }

  // ----- listings without duplicates -----

  lemma {:induction false} MultisetOfDistinct<T>(s: seq<T>)
    requires NoDuplicates(s)
    ensures multiset(s) == multiset(Elements(s))
  {
    if s != [] {
      MultisetOfDistinct(s[1..]);
      assert s == [s[0]] + s[1..];
      assert Elements(s) == {s[0]} + Elements(s[1..]);
      assert s[0] !in s[1..];
    } else {
      assert Elements(s) == {};
    }
  }

  lemma StrictUnique<T(!new)>(le: Order<T>, a: seq<T>, b: seq<T>)
    requires TotalOrder(le) && SortedBy(le, a) && SortedBy(le, b)
    requires NoDuplicates(a) && NoDuplicates(b) && Elements(a) == Elements(b)
    ensures a == b
  {
    MultisetOfDistinct(a);
    MultisetOfDistinct(b);
    SortedUnique(le, a, b);
  }

  /** `Vec::dedup` and `dedupeSorted`: drop an item equal to the one just kept. */
  function Dedup<T(==)>(s: seq<T>): seq<T> {
    if |s| < 2 then s
    else if s[0] == s[1] then Dedup(s[1..])
    else [s[0]] + Dedup(s[1..])
  }

  lemma {:induction false} DedupSorted<T(!new)>(le: Order<T>, s: seq<T>)
    requires TotalOrder(le) && SortedBy(le, s)
    ensures SortedBy(le, Dedup(s)) && NoDuplicates(Dedup(s)) && Elements(Dedup(s)) == Elements(s)
    ensures s != [] ==> Dedup(s) != [] && Dedup(s)[0] == s[0]
  {
    if |s| >= 2 {
      DedupSorted(le, s[1..]);
      var d := Dedup(s[1..]);
      assert Elements(s) == {s[0]} + Elements(s[1..]);
      if s[0] == s[1] {
        assert s[1] in s[1..];
      } else {
        forall y | y in d ensures le(s[0], y) && s[0] != y {
          assert y in Elements(d);
          assert y in s[1..];
          var j :| 1 <= j < |s| && s[j] == y;
          assert le(s[0], s[1]) && le(s[1], s[j]);
        }
        assert Elements([s[0]] + d) == {s[0]} + Elements(d);
      }
    }
  }

  /** The sorted listing of a finite set: the iteration order of a `BTreeMap` or `BTreeSet`. */
  ghost function Listing<T>(s: set<T>): (r: seq<T>)
    ensures NoDuplicates(r) && Elements(r) == s
  {
    if s == {} then []
    else
      var x :| x in s;
      var rest := Listing(s - {x});
      assert x !in rest by { assert x !in Elements(rest); }
      assert Elements([x] + rest) == {x} + Elements(rest);
      [x] + rest
  }

  ghost function SortSet<T>(le: Order<T>, s: set<T>): seq<T> {
    Sort(le, Listing(s))
  }

  lemma CountedTwice<T>(s: seq<T>, i: nat, j: nat)
    requires i < j < |s| && s[i] == s[j]
    ensures multiset(s)[s[i]] >= 2
  {
    assert s == s[..j] + [s[j]] + s[j + 1..];
    assert s[i] in s[..j];
  }

  lemma PermutationDistinct<T>(a: seq<T>, b: seq<T>)
    requires multiset(a) == multiset(b) && NoDuplicates(a)
    ensures NoDuplicates(b) && Elements(b) == Elements(a)
  {
    SameMembers(a, b);
    assert Elements(b) == Elements(a);
    MultisetOfDistinct(a);
    forall i, j | 0 <= i < j < |b| ensures b[i] != b[j] {
      if b[i] == b[j] {
        CountedTwice(b, i, j);
      }
    }
  }

  lemma SortSetSorts<T(!new)>(le: Order<T>, s: set<T>)
    requires TotalOrder(le)
    ensures SortedBy(le, SortSet(le, s)) && NoDuplicates(SortSet(le, s))
    ensures Elements(SortSet(le, s)) == s
  {
    SortSorts(le, Listing(s));
    PermutationDistinct(Listing(s), SortSet(le, s));
  }

  // ----- lexicographic order -----

  predicate LexLe(a: seq<int>, b: seq<int>) {
    if a == [] then true
    else if b == [] then false
    else if a[0] == b[0] then LexLe(a[1..], b[1..])
    else a[0] < b[0]
  }

  lemma {:induction false} LexReflexive(a: seq<int>)
    ensures LexLe(a, a)
  {
    if a != [] {
      LexReflexive(a[1..]);
    }
  }

  lemma {:induction false} LexTotal(a: seq<int>, b: seq<int>)
    ensures LexLe(a, b) || LexLe(b, a)
  {
    if a != [] && b != [] {
      LexTotal(a[1..], b[1..]);
    }
  }

  lemma {:induction false} LexAntisymmetric(a: seq<int>, b: seq<int>)
    requires LexLe(a, b) && LexLe(b, a)
    ensures a == b
  {
    if a != [] && b != [] {
      LexAntisymmetric(a[1..], b[1..]);
      assert a == [a[0]] + a[1..] && b == [b[0]] + b[1..];
    }
  }

  lemma {:induction false} LexTransitive(a: seq<int>, b: seq<int>, c: seq<int>)
    requires LexLe(a, b) && LexLe(b, c)
    ensures LexLe(a, c)
  {
    if a != [] && b != [] && c != [] && a[0] == b[0] == c[0] {
      LexTransitive(a[1..], b[1..], c[1..]);
    }
  }

  /** An order pulled back along an injective key is total. */
  lemma KeyOrderTotal<T(!new)>(le: Order<T>, key: T -> seq<int>)
    requires forall x, y :: le(x, y) <==> LexLe(key(x), key(y))
    requires forall x, y :: key(x) == key(y) ==> x == y
    ensures TotalOrder(le)
  {
    forall x ensures le(x, x) { LexReflexive(key(x)); }
    forall x, y ensures le(x, y) || le(y, x) { LexTotal(key(x), key(y)); }
    forall x, y | le(x, y) && le(y, x) ensures x == y { LexAntisymmetric(key(x), key(y)); }
    forall x, y, z | le(x, y) && le(y, z) ensures le(x, z) { LexTransitive(key(x), key(y), key(z)); }
  }
}
