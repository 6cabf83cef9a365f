/** The JavaScript array operations the handlers use on id lists:
    indexOf, splice, includes and filter. */
module Lists {

  /** No element occurs twice. */
  predicate NoDup<T(==)>(s: seq<T>) {
    forall i, j :: 0 <= i < j < |s| ==> s[i] != s[j]
  }

  /** Putting a new element in front of a duplicate-free list keeps it
      duplicate-free. */
  lemma ConsNoDup<T>(x: T, t: seq<T>)
    requires NoDup(t) && x !in t
    ensures NoDup([x] + t)
  {
  }

  /** Appending a new element to a duplicate-free list keeps it
      duplicate-free. */
  lemma SnocNoDup<T>(t: seq<T>, x: T)
    requires NoDup(t) && x !in t
    ensures NoDup(t + [x])
  {
  }

  /** Array.prototype.indexOf: the position of the first occurrence of `x`,
      or -1 when there is none. */
  function IndexOf<T(==)>(s: seq<T>, x: T): (r: int)
    ensures -1 <= r < |s|
    ensures r == -1 <==> x !in s
    ensures 0 <= r ==> s[r] == x && x !in s[..r]
  {
    if |s| == 0 then -1
    else if s[0] == x then 0
    else
      var k := IndexOf(s[1..], x);
      if k == -1 then -1
      else
        assert s[..k + 1] == [s[0]] + s[1..][..k];
        k + 1
  }

  /** splice(i, 1): drops the element at position `i`, keeping the order of
      the rest. */
  function RemoveAt<T>(s: seq<T>, i: nat): (r: seq<T>)
    requires i < |s|
    ensures |r| == |s| - 1
    ensures forall j | 0 <= j < |r| :: r[j] == s[if j < i then j else j + 1]
    ensures multiset(r) == multiset(s) - multiset{s[i]}
  {
    assert s == s[..i] + [s[i]] + s[i + 1..];
    s[..i] + s[i + 1..]
  }

  /** filter(y => y !== x): every occurrence of `x` removed, the others kept
      in order. */
  function RemoveAll<T(==)>(s: seq<T>, x: T): (r: seq<T>)
    ensures x !in r
    ensures multiset(r) == multiset(s)[x := 0]
    ensures |r| == |s| - multiset(s)[x]
  {
    if |s| == 0 then []
    else
      assert s == [s[0]] + s[1..];
      if s[0] == x then RemoveAll(s[1..], x) else [s[0]] + RemoveAll(s[1..], x)
  }

  /** filter works element by element: filtering a concatenation is the
      concatenation of the filtered parts, so the survivors keep their order. */
  lemma {:induction false} RemoveAllAppend<T>(a: seq<T>, b: seq<T>, x: T)
    ensures RemoveAll(a + b, x) == RemoveAll(a, x) + RemoveAll(b, x)
  {
    if |a| == 0 {
      assert a + b == b;
    } else {
      assert (a + b)[1..] == a[1..] + b;
      RemoveAllAppend(a[1..], b, x);
    }
  }

  /** Filtering a single element keeps it exactly when it is not `x`. */
  lemma RemoveAllSingle<T>(y: T, x: T)
    ensures RemoveAll([y], x) == (if y == x then [] else [y])
  {
    assert [y][1..] == [];
  }

  /** Removing the first occurrence of a member of a duplicate-free list
      leaves a duplicate-free list without it and with every other member. */
  lemma RemoveFirstOfDistinct<T>(s: seq<T>, x: T)
    requires NoDup(s) && x in s
    ensures NoDup(RemoveAt(s, IndexOf(s, x)))
    ensures x !in RemoveAt(s, IndexOf(s, x))
    ensures forall y :: y in RemoveAt(s, IndexOf(s, x)) <==> y in s && y != x
  {
  }
}
