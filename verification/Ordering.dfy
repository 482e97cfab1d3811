/** Byte-wise string order, and sorting by it. */
module Ordering {
  import opened Finite

  /** strings.Compare(a, b) <= 0; on UTF-8, byte order is code-point order. */
  predicate StrLeq(a: string, b: string) {
    a == [] || (b != [] && (a[0] < b[0] || (a[0] == b[0] && StrLeq(a[1..], b[1..]))))
  }

  /** Which order that is: a prefix comes first, and otherwise the first difference decides. */
  ghost predicate Precedes(a: string, b: string) {
    a <= b || exists k: nat :: SmallerAt(a, b, k)
  }

  ghost predicate SmallerAt(a: string, b: string, k: nat) {
    k < |a| && k < |b| && a[..k] == b[..k] && a[k] < b[k]
  }

  lemma {:induction false} StrLeqIff(a: string, b: string)
    ensures StrLeq(a, b) <==> Precedes(a, b)
  {
    if a == [] || b == [] {
    } else if a[0] != b[0] {
      FirstCharacter(a, b);
    } else {
      StrLeqIff(a[1..], b[1..]);
      hide StrLeq;
      PrecedesTails(a, b);
    }
  }

  lemma FirstCharacter(a: string, b: string)
    requires a != [] && b != [] && a[0] != b[0]
    ensures Precedes(a, b) <==> a[0] < b[0]
  {
    if a[0] < b[0] {
      assert SmallerAt(a, b, 0);
    }
    if k: nat :| SmallerAt(a, b, k) {
      assert k > 0 ==> a[..k][0] == b[..k][0];
    }
  }

  lemma PrecedesTails(a: string, b: string)
    requires a != [] && b != [] && a[0] == b[0]
    ensures Precedes(a, b) <==> Precedes(a[1..], b[1..])
  {
    assert a == [a[0]] + a[1..] && b == [b[0]] + b[1..];
    if k: nat :| SmallerAt(a, b, k) {
      assert k > 0;
      assert a[1..][..k - 1] == a[..k][1..] && b[1..][..k - 1] == b[..k][1..];
      assert SmallerAt(a[1..], b[1..], k - 1);
    }
    if k: nat :| SmallerAt(a[1..], b[1..], k) {
      assert a[..k + 1] == [a[0]] + a[1..][..k] && b[..k + 1] == [b[0]] + b[1..][..k];
      assert SmallerAt(a, b, k + 1);
    }
  }

  lemma PrecedesRefl(a: string)
    ensures Precedes(a, a)
  {
  }

  lemma {:induction false} PrecedesTotal(a: string, b: string)
    ensures Precedes(a, b) || Precedes(b, a)
  {
    if a != [] && b != [] {
      hide Precedes;
      if a[0] == b[0] {
        PrecedesTotal(a[1..], b[1..]);
        PrecedesTails(a, b);
        PrecedesTails(b, a);
      } else {
        FirstCharacter(a, b);
        FirstCharacter(b, a);
      }
    }
  }

  lemma {:induction false} PrecedesAntisym(a: string, b: string)
    requires Precedes(a, b) && Precedes(b, a)
    ensures a == b
  {
    if a != [] && b != [] {
      hide Precedes;
      if a[0] == b[0] {
        PrecedesTails(a, b);
        PrecedesTails(b, a);
        PrecedesAntisym(a[1..], b[1..]);
        assert a == [a[0]] + a[1..] && b == [b[0]] + b[1..];
      } else {
        FirstCharacter(a, b);
        FirstCharacter(b, a);
      }
    }
  }

  lemma {:induction false} PrecedesTrans(a: string, b: string, c: string)
    requires Precedes(a, b) && Precedes(b, c)
    ensures Precedes(a, c)
  {
    if a != [] {
      assert b != [] && c != [];
      hide Precedes;
      if a[0] == b[0] == c[0] {
        PrecedesTails(a, b);
        PrecedesTails(b, c);
        PrecedesTrans(a[1..], b[1..], c[1..]);
        PrecedesTails(a, c);
      } else {
        if a[0] != b[0] { FirstCharacter(a, b); }
        if b[0] != c[0] { FirstCharacter(b, c); }
        FirstCharacter(a, c);
      }
    }
  }

  ghost predicate SortedBy<T(!new)>(xs: seq<T>, key: T -> string) {
    forall i, j :: 0 <= i < j < |xs| ==> Precedes(key(xs[i]), key(xs[j]))
  }

  ghost predicate InjectiveOn<T(!new)>(xs: seq<T>, key: T -> string) {
    forall x, y :: x in xs && y in xs && key(x) == key(y) ==> x == y
  }

  /** xs holds the same elements as ys, as often, in key order. */
  ghost predicate SortOf<T(!new)>(xs: seq<T>, ys: seq<T>, key: T -> string) {
    multiset(xs) == multiset(ys) && SortedBy(xs, key)
  }

  method SortByKey<T(!new)>(ys: seq<T>, key: T -> string) returns (xs: seq<T>)
    ensures SortOf(xs, ys, key)
  {
    xs := [];
    for n := 0 to |ys|
      invariant multiset(xs) == multiset(ys[..n])
      invariant SortedBy(xs, key)
    {
      assert ys[..n + 1] == ys[..n] + [ys[n]];
      xs := Insert(xs, ys[n], key);
    }
    assert ys[..|ys|] == ys;
  }

  method Insert<T(!new)>(xs: seq<T>, x: T, key: T -> string) returns (r: seq<T>)
    requires SortedBy(xs, key)
    ensures multiset(r) == multiset(xs) + multiset{x} && SortedBy(r, key)
  {
    hide Precedes, StrLeq, SortedBy;
    var i := InsertionPoint(xs, x, key);
    r := xs[..i] + [x] + xs[i..];
    assert xs == xs[..i] + xs[i..];
    InsertedSorted(xs, i, x, key);
  }

  /** Past everything that is not after x, going back from the end. */
  method InsertionPoint<T(!new)>(xs: seq<T>, x: T, key: T -> string) returns (i: nat)
    ensures i <= |xs| && (i > 0 ==> Precedes(key(xs[i - 1]), key(x)))
    ensures forall j :: i <= j < |xs| ==> Precedes(key(x), key(xs[j]))
  {
    hide Precedes, StrLeq;
    i := |xs|;
    while i > 0
      invariant i <= |xs|
      invariant forall j :: i <= j < |xs| ==> Precedes(key(x), key(xs[j]))
    {
      StrLeqIff(key(xs[i - 1]), key(x));
      if StrLeq(key(xs[i - 1]), key(x)) {
        return;
      }
      PrecedesTotal(key(xs[i - 1]), key(x));
      i := i - 1;
    }
  }

  lemma InsertedSorted<T(!new)>(xs: seq<T>, i: nat, x: T, key: T -> string)
    requires SortedBy(xs, key) && i <= |xs|
    requires i > 0 ==> Precedes(key(xs[i - 1]), key(x))
    requires forall j :: i <= j < |xs| ==> Precedes(key(x), key(xs[j]))
    ensures SortedBy(xs[..i] + [x] + xs[i..], key)
  {
    hide Precedes;
    forall j | 0 <= j < i ensures Precedes(key(xs[j]), key(x)) {
      if j < i - 1 { PrecedesTrans(key(xs[j]), key(xs[i - 1]), key(x)); }
    }
  }

  lemma HeadsAgree<T(!new)>(a: seq<T>, b: seq<T>, key: T -> string)
    requires a != [] && b != [] && a[0] in b && b[0] in a
    requires SortedBy(a, key) && SortedBy(b, key) && InjectiveOn(a, key)
    ensures a[0] == b[0]
  {
    var i :| 0 <= i < |b| && b[i] == a[0];
    var j :| 0 <= j < |a| && a[j] == b[0];
    PrecedesRefl(key(a[0]));
    PrecedesRefl(key(b[0]));
    PrecedesAntisym(key(a[0]), key(b[0]));
  }

  lemma TailOf<T>(a: seq<T>)
    requires a != []
    ensures multiset(a[1..]) == multiset(a) - multiset{a[0]}
  {
    assert a == [a[0]] + a[1..];
  }

  lemma SameMembers<T>(a: seq<T>, b: seq<T>)
    requires multiset(a) == multiset(b)
    ensures |a| == |b| && forall x :: x in a <==> x in b
  {
    assert |a| == |multiset(a)| == |multiset(b)| == |b|;
    assert forall x :: x in a <==> x in multiset(a);
    assert forall x :: x in b <==> x in multiset(b);
  }

  lemma SortedTail<T(!new)>(a: seq<T>, key: T -> string)
    requires a != [] && SortedBy(a, key)
    ensures SortedBy(a[1..], key)
  {
    hide Precedes;
  }

  lemma InjectiveTail<T(!new)>(a: seq<T>, key: T -> string)
    requires a != [] && InjectiveOn(a, key)
    ensures InjectiveOn(a[1..], key)
  {
    assert forall x :: x in a[1..] ==> x in a;
  }

  /** Sorting by a key that tells the elements apart has one outcome. */
  lemma {:induction false} SortIsUnique<T(!new)>(a: seq<T>, b: seq<T>, key: T -> string)
    requires multiset(a) == multiset(b)
    requires SortedBy(a, key) && SortedBy(b, key) && InjectiveOn(a, key)
    ensures a == b
  {
    hide Precedes, SortedBy, InjectiveOn;
    assert |a| == |b| by { SameMembers(a, b); }
    if a != [] {
      assert a[0] == b[0] by {
        SameMembers(a, b);
        assert a[0] in a && b[0] in b;
        HeadsAgree(a, b, key);
      }
      TailsMatch(a, b);
      InjectiveTail(a, key);
      SortedTail(a, key);
      SortedTail(b, key);
      SortIsUnique(a[1..], b[1..], key);
      assert a == [a[0]] + a[1..] && b == [b[0]] + b[1..];
    }
  }

  lemma TailsMatch<T>(a: seq<T>, b: seq<T>)
    requires a != [] && b != [] && a[0] == b[0] && multiset(a) == multiset(b)
    ensures multiset(a[1..]) == multiset(b[1..])
  {
    TailOf(a);
    TailOf(b);
  }

  // ---------- the keys of a map, in order ----------

  ghost predicate SortedNames(names: seq<string>) {
    Distinct(names) && SortedBy(names, (s: string) => s)
  }

  /** sortedKeys. */
  method SortedKeys(keys: set<string>) returns (names: seq<string>)
    ensures SortedNames(names) && Elements(names) == keys
  {
    names := [];
    var left := keys;
    while left != {}
      invariant left <= keys && Elements(names) == keys - left && Distinct(names)
      decreases |left|
    {
      var name :| name in left;
      assert name !in Elements(names);
      assert Elements(names + [name]) == Elements(names) + {name};
      names := names + [name];
      left := left - {name};
    }
    ghost var before := names;
    names := SortByKey(names, (s: string) => s);
    SameMembers(names, before);
    assert Elements(names) == Elements(before);
    SortingKeepsDistinct(before, names);
  }

  lemma {:induction false} SortingKeepsDistinct<T>(a: seq<T>, b: seq<T>)
    requires Distinct(a) && multiset(a) == multiset(b)
    ensures Distinct(b)
  {
    forall j, k | 0 <= j < k < |b| ensures b[j] != b[k] {
      if b[j] == b[k] {
        assert b == b[..j] + [b[j]] + b[j + 1..k] + [b[k]] + b[k + 1..];
        assert multiset(b)[b[j]] >= 2;
        OnceEach(a, b[j]);
      }
    }
  }

  lemma {:induction false} OnceEach<T>(a: seq<T>, x: T)
    requires Distinct(a)
    ensures multiset(a)[x] <= 1
  {
    if a != [] {
      OnceEach(a[1..], x);
      assert a == [a[0]] + a[1..];
      if a[0] == x { assert x !in a[1..]; }
    }
  }

  /** A set has one sorted listing. */
  lemma SortedNamesUnique(a: seq<string>, b: seq<string>)
    requires SortedNames(a) && SortedNames(b) && Elements(a) == Elements(b)
    ensures a == b
  {
    forall x ensures multiset(a)[x] == multiset(b)[x] {
      assert x in a <==> x in Elements(a);
      assert x in b <==> x in Elements(b);
      OnceEach(a, x);
      OnceEach(b, x);
    }
    SortIsUnique(a, b, (s: string) => s);
  }
}
