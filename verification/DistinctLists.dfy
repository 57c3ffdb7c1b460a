/** Lists without repetitions. */
module DistinctLists {

  ghost predicate NoDuplicates<T>(s: seq<T>) {
    s == [] || (s[0] !in s[1..] && NoDuplicates(s[1..]))
  }

  /** `s` with `x` taken out. */
  function Without<T(==)>(s: seq<T>, x: T): seq<T> {
    if s == [] then [] else if s[0] == x then Without(s[1..], x) else [s[0]] + Without(s[1..], x)
  }

  lemma {:induction false} WithoutElements<T>(s: seq<T>, x: T)
    ensures forall y :: y in Without(s, x) <==> y in s && y != x
    ensures NoDuplicates(s) ==> NoDuplicates(Without(s, x))
  {
    if s != [] {
      WithoutElements(s[1..], x);
      if s[0] != x { assert Without(s, x)[1..] == Without(s[1..], x); }
    }
  }

  lemma {:induction false} WithoutAbsent<T>(s: seq<T>, x: T)
    requires x !in s
    ensures Without(s, x) == s
  {
    if s != [] { WithoutAbsent(s[1..], x); }
  }

  lemma WithoutFirst<T>(s: seq<T>)
    requires s != [] && NoDuplicates(s)
    ensures Without(s, s[0]) == s[1..]
  {
    WithoutAbsent(s[1..], s[0]);
  }

  lemma {:induction false} AppendDistinct<T>(s: seq<T>, x: T)
    requires NoDuplicates(s) && x !in s
    ensures NoDuplicates(s + [x]) && forall y :: y in s + [x] <==> y in s || y == x
  {
    if s != [] {
      AppendDistinct(s[1..], x);
      assert (s + [x])[1..] == s[1..] + [x];
    }
  }

  lemma {:induction false} PositionUnique<T>(s: seq<T>, i: nat, j: nat)
    requires NoDuplicates(s) && i < |s| && j < |s| && s[i] == s[j]
    ensures i == j
  {
    if i > 0 && j > 0 { PositionUnique(s[1..], i - 1, j - 1); }
  }

  lemma {:induction false} InsertDistinct<T>(a: seq<T>, b: seq<T>, x: T)
    requires NoDuplicates(a + b) && x !in a && x !in b
    ensures NoDuplicates(a + [x] + b)
  {
    if a == [] {
      assert [] + b == b && a + [x] + b == [x] + b && ([x] + b)[1..] == b;
    } else {
      assert (a + b)[1..] == a[1..] + b;
      InsertDistinct(a[1..], b, x);
      assert (a + [x] + b)[1..] == a[1..] + [x] + b;
    }
  }

  lemma AppendLast<T>(a: seq<T>, b: seq<T>, x: T)
    requires NoDuplicates(a + b) && x !in a && x !in b
    ensures NoDuplicates(a + (b + [x]))
  {
    AppendDistinct(a + b, x);
    assert a + b + [x] == a + (b + [x]);
  }

  lemma {:induction false} RemoveDistinct<T>(s: seq<T>, i: nat)
    requires NoDuplicates(s) && i < |s|
    ensures NoDuplicates(s[..i] + s[i + 1..]) && s[i] !in s[..i] + s[i + 1..]
    ensures forall y :: y in s <==> y in s[..i] + s[i + 1..] || y == s[i]
  {
    if i == 0 {
      assert s[..0] + s[1..] == s[1..];
    } else {
      RemoveDistinct(s[1..], i - 1);
      assert (s[..i] + s[i + 1..])[1..] == s[1..][..i - 1] + s[1..][i..];
      assert s[1..][i - 1] == s[i];
    }
  }
}
