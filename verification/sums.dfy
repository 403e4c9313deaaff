/** Sums over finite sets and sequences. The source accumulates areas while
    iterating a hash set or hash map in an unspecified order; `SetSum` is the
    order-free value of such a loop, and `SetSumRemove` says that taking out
    any element first gives the same total. */
module Sums {

  /** No element occurs twice. */
  predicate Distinct<T(==)>(c: seq<T>)
  {
    forall i, j :: 0 <= i < j < |c| ==> c[i] != c[j]
  }

  ghost function SetSum<T>(s: set<T>, f: T -> int): int
    decreases s
  {
    if s == {} then 0 else var x :| x in s; f(x) + SetSum(s - {x}, f)
  }

  function SeqSum<T>(c: seq<T>, f: T -> int): int
  {
    if c == [] then 0 else f(c[0]) + SeqSum(c[1..], f)
  }

  /** The sum over a set does not depend on which element is taken first. */
  lemma {:induction false} SetSumRemove<T>(s: set<T>, f: T -> int, y: T)
    requires y in s
    ensures SetSum(s, f) == f(y) + SetSum(s - {y}, f)
    decreases s
  {
    var x :| x in s && SetSum(s, f) == f(x) + SetSum(s - {x}, f);
    if x != y {
      SetSumRemove(s - {x}, f, y);
      SetSumRemove(s - {y}, f, x);
      assert s - {x} - {y} == s - {y} - {x};
    }
  }

  /** Adding a new element adds its value. */
  lemma SetSumInsert<T>(s: set<T>, f: T -> int, y: T)
    requires y !in s
    ensures SetSum(s + {y}, f) == SetSum(s, f) + f(y)
  {
    SetSumRemove(s + {y}, f, y);
    assert s + {y} - {y} == s;
  }

  /** Over a sequence without repetitions the set sum is the sequence sum. */
  lemma {:induction false} SetSumOfDistinctSeq<T>(c: seq<T>, f: T -> int)
    requires Distinct(c)
    ensures SetSum((set x | x in c), f) == SeqSum(c, f)
  {
    if c != [] {
      var s := set x | x in c;
      SetSumRemove(s, f, c[0]);
      assert s - {c[0]} == set x | x in c[1..];
      SetSumOfDistinctSeq(c[1..], f);
    }
  }

  /** A sequence without repetitions has as many distinct elements as entries. */
  lemma {:induction false} DistinctCard<T>(c: seq<T>)
    requires Distinct(c)
    ensures |set x | x in c| == |c|
  {
    if c != [] {
      var s := set x | x in c;
      assert s == {c[0]} + set x | x in c[1..];
      DistinctCard(c[1..]);
    }
  }

  /** The image of s under g. */
  function Image<A, B>(s: set<A>, g: A -> B): (r: set<B>)
    ensures forall x | x in s :: g(x) in r
    ensures forall y | y in r :: exists x | x in s :: g(x) == y
  {
    set x | x in s :: g(x)
  }

  /** An image has at most as many elements as its domain, and exactly as
      many when the map is injective on it. */
  lemma {:induction false} ImageCard<A, B>(s: set<A>, g: A -> B)
    ensures |Image(s, g)| <= |s|
    ensures (forall x, y | x in s && y in s :: g(x) == g(y) ==> x == y) ==>
      |Image(s, g)| == |s|
    decreases s
  {
    if s != {} {
      var x :| x in s;
      var rest := s - {x};
      ImageCard(rest, g);
      assert Image(s, g) == Image(rest, g) + {g(x)};
    }
  }

  /** Summing f over the image of an injective g is summing f . g over the
      domain. */
  lemma {:induction false} SetSumInjectiveImage<A, B>(s: set<A>, g: A -> B, f: B -> int, h: A -> int)
    requires forall x, y | x in s && y in s :: g(x) == g(y) ==> x == y
    requires forall x | x in s :: h(x) == f(g(x))
    ensures SetSum(Image(s, g), f) == SetSum(s, h)
    decreases s
  {
    if s != {} {
      var x :| x in s;
      var rest := s - {x};
      var img := Image(s, g);
      var imgRest := Image(rest, g);
      assert img == imgRest + {g(x)};
      assert g(x) !in imgRest;
      SetSumInjectiveImage(rest, g, f, h);
      SetSumInsert(imgRest, f, g(x));
      SetSumRemove(s, h, x);
    }
  }
}
