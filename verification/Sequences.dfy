/** Sequences without repetitions, and removing from them. */
module Sequences {
  function Members<T(==)>(s: seq<T>): set<T> {
    set x | x in s
  }

  predicate NoDuplicates<T(==)>(s: seq<T>) {
    forall i, j | 0 <= i < j < |s| :: s[i] != s[j]
  }

  lemma NoDuplicatesAppend<T>(s: seq<T>, x: T)
    requires NoDuplicates(s) && x !in s
    ensures NoDuplicates(s + [x])
  {
  }

  lemma NoDuplicatesConcat<T>(a: seq<T>, b: seq<T>)
    requires NoDuplicates(a) && NoDuplicates(b) && forall i | 0 <= i < |b| :: b[i] !in a
    ensures NoDuplicates(a + b)
  {
  }

  /** The elements in some order: how a hash table is walked. */
  method Enumerate<T(==)>(elements: set<T>) returns (order: seq<T>)
    ensures NoDuplicates(order) && Members(order) == elements
  {
    order := [];
    var todo := elements;
    while todo != {}
      invariant NoDuplicates(order)
      invariant todo !! Members(order)
      invariant Members(order) + todo == elements
    {
      var x :| x in todo;
      NoDuplicatesAppend(order, x);
      order, todo := order + [x], todo - {x};
    }
  }

  function Without<T>(s: seq<T>, j: nat): seq<T>
    requires j < |s|
  {
    s[..j] + s[j + 1..]
  }

  lemma WithoutMultiset<T>(s: seq<T>, j: nat)
    requires j < |s|
    ensures multiset(s) == multiset(Without(s, j)) + multiset{s[j]}
  {
    assert s == s[..j] + [s[j]] + s[j + 1..];
  }

  lemma WithoutKeys<T>(s: seq<T>, j: nat)
    requires j < |s| && NoDuplicates(s)
    ensures NoDuplicates(Without(s, j))
    ensures Members(Without(s, j)) == Members(s) - {s[j]}
  {
    assert s == s[..j] + [s[j]] + s[j + 1..];
    assert forall i | 0 <= i < |s| - 1 :: Without(s, j)[i] == s[if i < j then i else i + 1];
  }

  lemma SameMembers<T>(a: seq<T>, b: seq<T>, x: T)
    requires Members(a) == Members(b) && x in a
    ensures x in b
  {
    assert x in Members(a);
  }

  ghost predicate ImageOf<A, B>(a: seq<A>, x: seq<B>, f: A -> B) {
    |x| == |a| && forall i | 0 <= i < |a| :: x[i] == f(a[i])
  }

  lemma FindIn<T>(a: seq<T>, b: seq<T>) returns (j: nat)
    requires a != [] && multiset(a) == multiset(b)
    ensures j < |b| && b[j] == a[0]
    ensures multiset(Without(a, 0)) == multiset(Without(b, j))
  {
    assert a[0] in multiset(b);
    j :| 0 <= j < |b| && b[j] == a[0];
    WithoutMultiset(a, 0);
    WithoutMultiset(b, j);
    assert multiset(Without(a, 0)) == multiset(a) - multiset{a[0]};
    assert multiset(Without(b, j)) == multiset(b) - multiset{b[j]};
  }

  /** Two orders of the same things have the same images, up to order. */
  lemma {:induction false} PermutedImages<A, B>(a: seq<A>, x: seq<B>, b: seq<A>, y: seq<B>, f: A -> B)
    requires multiset(a) == multiset(b) && ImageOf(a, x, f) && ImageOf(b, y, f)
    ensures multiset(x) == multiset(y)
  {
    if a == [] {
      assert |multiset(b)| == |b|;
    } else {
      var j := FindIn(a, b);
      PermutedImages(Without(a, 0), Without(x, 0), Without(b, j), Without(y, j), f);
      WithoutMultiset(x, 0);
      WithoutMultiset(y, j);
    }
  }

  /** Without repetitions, the members are all there is to know up to order. */
  lemma {:induction false} SameMultiset<T>(a: seq<T>, b: seq<T>)
    requires NoDuplicates(a) && NoDuplicates(b) && Members(a) == Members(b)
    ensures multiset(a) == multiset(b)
  {
    if a == [] {
      if b != [] {
        SameMembers(b, a, b[0]);
      }
    } else {
      SameMembers(a, b, a[0]);
      var j :| 0 <= j < |b| && b[j] == a[0];
      WithoutKeys(a, 0);
      WithoutKeys(b, j);
      SameMultiset(Without(a, 0), Without(b, j));
      WithoutMultiset(a, 0);
      WithoutMultiset(b, j);
    }
  }
}
