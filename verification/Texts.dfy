/** Taking texts apart at a mark. */
module Texts {
  import opened Prelude

  datatype Split<T> = Split(before: seq<T>, rest: Option<seq<T>>)

  /** The text before the first `c`, and what follows it if there is one. */
  function SplitAt<T(==)>(t: seq<T>, c: T): (s: Split<T>)
    ensures |s.before| <= |t|
    ensures s.rest.Some? ==> |s.rest.value| < |t|
  {
    if t == [] then Split([], None)
    else if t[0] == c then Split([], Some(t[1..]))
    else
      var s := SplitAt(t[1..], c);
      Split([t[0]] + s.before, s.rest)
  }

  /** All the pieces between the marks. */
  function Pieces<T(==)>(t: seq<T>, c: T): seq<seq<T>>
    decreases |t|
  {
    var s := SplitAt(t, c);
    [s.before] + if s.rest.Some? then Pieces(s.rest.value, c) else []
  }

  lemma {:induction false} SplitFinds<T>(before: seq<T>, c: T, rest: seq<T>)
    requires c !in before
    ensures SplitAt(before + [c] + rest, c) == Split(before, Some(rest))
    ensures SplitAt(before, c) == Split(before, None)
  {
    var whole := before + [c] + rest;
    if before == [] {
      assert whole[1..] == rest;
    } else {
      SplitFinds(before[1..], c, rest);
      assert whole[1..] == before[1..] + [c] + rest;
      assert [before[0]] + before[1..] == before;
    }
  }

  /** Texts with a mark in them are equal exactly when they are equal before and after the first mark. */
  lemma FirstMarkSplits<T>(a: seq<T>, a': seq<T>, b: seq<T>, b': seq<T>, c: T)
    requires c !in a && c !in b
    ensures a + [c] + a' == b + [c] + b' <==> a == b && a' == b'
  {
    SplitFinds(a, c, a');
    SplitFinds(b, c, b');
  }
}
