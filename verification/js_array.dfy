/** The two `Array.prototype` methods the server relies on: `find` and `flatMap`. */
module JsArray {
  import opened Wrappers

  /** Index of the first element of `s` satisfying `p`, or `|s|` when there is none. */
  function FirstIndexWhere<T>(s: seq<T>, p: T -> bool): (i: nat)
    ensures i <= |s|
    ensures i < |s| ==> p(s[i])
    ensures forall j :: 0 <= j < i ==> !p(s[j])
  {
    if |s| == 0 then 0
    else if p(s[0]) then 0
    else 1 + FirstIndexWhere(s[1..], p)
  }

  /** `Array.prototype.find`: the first element satisfying `p`; `None` plays `undefined`. */
  function Find<T>(s: seq<T>, p: T -> bool): (r: Option<T>)
    ensures r.None? <==> forall i :: 0 <= i < |s| ==> !p(s[i])
    ensures r.Some? ==> exists i :: 0 <= i < |s| && s[i] == r.value && p(s[i]) && forall j :: 0 <= j < i ==> !p(s[j])
  {
    var i := FirstIndexWhere(s, p);
    if i < |s| then Some(s[i]) else None
  }

  /** `Array.prototype.flatMap` with a callback that always returns an array. */
  function FlatMap<T, U>(s: seq<T>, f: T -> seq<U>): seq<U> {
    if |s| == 0 then [] else f(s[0]) + FlatMap(s[1..], f)
  }

  /** An element is in the flattened sequence exactly when some callback result holds it. */
  lemma {:induction false} FlatMapMembers<T, U>(s: seq<T>, f: T -> seq<U>, x: U)
    ensures x in FlatMap(s, f) <==> exists i :: 0 <= i < |s| && x in f(s[i])
    decreases |s|
  {
    if |s| > 0 {
      FlatMapMembers(s[1..], f, x);
      if x in FlatMap(s[1..], f) {
        var k :| 0 <= k < |s[1..]| && x in f(s[1..][k]);
        assert x in f(s[k + 1]);
      }
      if exists i :: 1 <= i < |s| && x in f(s[i]) {
        var i :| 1 <= i < |s| && x in f(s[i]);
        assert s[1..][i - 1] == s[i];
      }
    }
  }

  /** Flattening distributes over concatenation of the outer sequence. */
  lemma {:induction false} FlatMapAppend<T, U>(a: seq<T>, b: seq<T>, f: T -> seq<U>)
    ensures FlatMap(a + b, f) == FlatMap(a, f) + FlatMap(b, f)
    decreases |a|
  {
    if |a| == 0 {
      assert a + b == b;
    } else {
      assert (a + b)[1..] == a[1..] + b;
      FlatMapAppend(a[1..], b, f);
    }
  }

  /** Reordering the outer sequence only reorders the flattened elements. */
  lemma {:induction false} FlatMapPermutation<T, U>(a: seq<T>, b: seq<T>, f: T -> seq<U>)
    requires multiset(a) == multiset(b)
    ensures multiset(FlatMap(a, f)) == multiset(FlatMap(b, f))
    decreases |a|
  {
    if |a| == 0 {
      assert |b| == |multiset(b)| == 0;
    } else {
      assert a[0] in multiset(b);
      var i :| 0 <= i < |b| && b[i] == a[0];
      var rest := b[..i] + b[i + 1..];
      RemoveAtMultiset(a, b, i);
      FlatMapPermutation(a[1..], rest, f);
      FlatMapRemoveAt(b, i, f);
      assert FlatMap(a, f) == f(a[0]) + FlatMap(a[1..], f);
    }
  }

  lemma RemoveAtMultiset<T>(a: seq<T>, b: seq<T>, i: nat)
    requires multiset(a) == multiset(b) && |a| > 0 && i < |b| && b[i] == a[0]
    ensures multiset(a[1..]) == multiset(b[..i] + b[i + 1..])
  {
    var left, right := b[..i], b[i + 1..];
    assert b == left + ([b[i]] + right);
    assert a == [a[0]] + a[1..];
    assert multiset(a[1..]) == multiset(a) - multiset{a[0]};
    assert multiset(left + right) == multiset(left) + multiset(right);
    assert multiset(b) == multiset(left) + multiset{a[0]} + multiset(right);
  }

  lemma FlatMapRemoveAt<T, U>(b: seq<T>, i: nat, f: T -> seq<U>)
    requires i < |b|
    ensures multiset(FlatMap(b, f)) == multiset(f(b[i])) + multiset(FlatMap(b[..i] + b[i + 1..], f))
  {
    var left, right := b[..i], b[i + 1..];
    FlatMapSplitAt(b, i, f);
    FlatMapAppend(left, right, f);
    MiddleMultiset(FlatMap(left, f), f(b[i]), FlatMap(right, f));
  }

  /** Flattening `b` is flattening the part before `i`, then `b[i]`, then the part after. */
  lemma FlatMapSplitAt<T, U>(b: seq<T>, i: nat, f: T -> seq<U>)
    requires i < |b|
    ensures FlatMap(b, f) == FlatMap(b[..i], f) + (f(b[i]) + FlatMap(b[i + 1..], f))
  {
    var left, right := b[..i], b[i + 1..];
    assert b == left + ([b[i]] + right);
    FlatMapAppend(left, [b[i]] + right, f);
    assert ([b[i]] + right)[1..] == right;
  }

  lemma MiddleMultiset<U>(x: seq<U>, y: seq<U>, z: seq<U>)
    ensures multiset(x + (y + z)) == multiset(y) + multiset(x + z)
  {
  }
}
