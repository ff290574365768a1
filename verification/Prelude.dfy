/** Small shared vocabulary: optional values and sums over sequences. */
module Prelude {

  datatype Option<+T> = None | Some(value: T) {
    function Or(default: T): T {
      if Some? then value else default
    }
  }

  datatype Result<+T, +E> = Ok(value: T) | Err(error: E)

  function Max(a: int, b: int): int {
    if a < b then b else a
  }

  function Min(a: int, b: int): int {
    if a < b then a else b
  }

  ghost predicate NoDuplicates<T>(s: seq<T>) {
    forall i, j | 0 <= i < j < |s| :: s[i] != s[j]
  }

  ghost predicate SameElements<T>(a: seq<T>, b: seq<T>) {
    && (forall x | x in a :: x in b)
    && (forall x | x in b :: x in a)
  }

  ghost function SumBy<T>(s: seq<T>, f: T -> int): int {
    if s == [] then 0 else SumBy(s[..|s| - 1], f) + f(s[|s| - 1])
  }

  lemma {:induction false} SumByAppend<T>(a: seq<T>, b: seq<T>, f: T -> int)
    ensures SumBy(a + b, f) == SumBy(a, f) + SumBy(b, f)
  {
    if b == [] {
      assert a + b == a;
    } else {
      assert (a + b)[..|a + b| - 1] == a + b[..|b| - 1];
      SumByAppend(a, b[..|b| - 1], f);
    }
  }

  lemma NonEmptyHasElement<T>(s: seq<T>)
    ensures s == [] || exists x :: x in s
  {
    assert s == [] || s[0] in s;
  }

  /** `s` without the element at position `k`. */
  ghost function Without<T>(s: seq<T>, k: nat): (r: seq<T>)
    requires k < |s|
    ensures forall x | x in r :: x in s
    ensures forall x | x in s && x != s[k] :: x in r
    ensures NoDuplicates(s) ==> NoDuplicates(r) && s[k] !in r
  {
    var r := s[..k] + s[k + 1..];
    assert forall j | 0 <= j < |r| :: r[j] == s[if j < k then j else j + 1];
    assert forall j | 0 <= j < |s| && j != k :: s[j] == r[if j < k then j else j - 1];
    r
  }

  lemma SumOfOne<T>(x: T, f: T -> int)
    ensures SumBy([x], f) == f(x)
  {
    assert [x][..0] == [];
  }

  lemma SumWithout<T>(s: seq<T>, k: nat, f: T -> int)
    requires k < |s|
    ensures SumBy(s, f) == SumBy(Without(s, k), f) + f(s[k])
  {
    hide SumBy;
    var before, after := s[..k], s[k + 1..];
    assert s == (before + [s[k]]) + after;
    SumOfOne(s[k], f);
    SumByAppend(before, [s[k]], f);
    SumByAppend(before + [s[k]], after, f);
    SumByAppend(before, after, f);
  }

  /** A sum over a duplicate-free sequence depends only on which elements occur in it. */
  lemma {:induction false} SumIgnoresOrder<T>(a: seq<T>, b: seq<T>, f: T -> int)
    requires NoDuplicates(a) && NoDuplicates(b)
    requires SameElements(a, b)
    ensures SumBy(a, f) == SumBy(b, f)
  {
    if a == [] {
      NonEmptyHasElement(b);
    } else {
      assert a[0] in b;
      var k :| 0 <= k < |b| && b[k] == a[0];
      SumIgnoresOrder(Without(a, 0), Without(b, k), f);
      SumWithout(a, 0, f);
      SumWithout(b, k, f);
    }
  }
}
