/**
 * The order in which `Object.keys` lists the own string keys of an ordinary object
 * (OrdinaryOwnPropertyKeys, section 10.1.11.1 of ECMAScript 2024): first every key that
 * is an array index, in ascending numeric order, then every other key in the order the
 * properties were created.
 */
module PropertyKeys {
  import opened Wrappers
  import JsArray

  predicate IsDigit(c: char) { '0' <= c <= '9' }

  predicate IsDigits(s: string) { forall i :: 0 <= i < |s| ==> IsDigit(s[i]) }

  function DigitValue(c: char): nat
    requires IsDigit(c)
  {
    c as int - '0' as int
  }

  /** The number a string of decimal digits denotes. */
  function NumeralValue(s: string): nat
    requires IsDigits(s)
  {
    if |s| == 0 then 0 else NumeralValue(s[..|s| - 1]) * 10 + DigitValue(s[|s| - 1])
  }

  /** What `ToString` produces for a non-negative integer: digits, no leading zero. */
  predicate IsCanonicalNumeral(s: string) {
    |s| > 0 && IsDigits(s) && (|s| == 1 || s[0] != '0')
  }

  /** An array index is a canonical numeral whose value is below 2^32 - 1 (section 6.1.7). */
  const MaxArrayIndex: nat := 0xFFFF_FFFE

  predicate IsArrayIndex(s: string) {
    IsCanonicalNumeral(s) && NumeralValue(s) <= MaxArrayIndex
  }

  /** The numeric value used to sort keys; only meaningful for array indices. */
  function IndexValue(s: string): nat {
    if IsDigits(s) then NumeralValue(s) else 0
  }

  function Pow10(n: nat): nat {
    if n == 0 then 1 else 10 * Pow10(n - 1)
  }

  lemma {:induction false} NumeralBelowPow10(s: string)
    requires IsDigits(s)
    ensures NumeralValue(s) < Pow10(|s|)
    decreases |s|
  {
    if |s| > 0 {
      var p := s[..|s| - 1];
      NumeralBelowPow10(p);
      assert NumeralValue(s) == NumeralValue(p) * 10 + DigitValue(s[|s| - 1]);
      assert NumeralValue(p) + 1 <= Pow10(|p|);
    }
  }

  lemma {:induction false} NumeralAboveLeadingDigit(s: string)
    requires IsDigits(s) && |s| > 0
    ensures NumeralValue(s) >= DigitValue(s[0]) * Pow10(|s| - 1)
    decreases |s|
  {
    if |s| > 1 {
      var p := s[..|s| - 1];
      NumeralAboveLeadingDigit(p);
      assert p[0] == s[0];
      ScaleStep(NumeralValue(p), DigitValue(s[0]), Pow10(|p| - 1), DigitValue(s[|s| - 1]));
    }
  }

  /** `n >= d * q` survives appending a digit on the left and a factor 10 on the right. */
  lemma ScaleStep(n: nat, d: nat, q: nat, e: nat)
    requires n >= d * q
    ensures n * 10 + e >= d * (10 * q)
  {
  }

  lemma DigitStepInjective(x: nat, d: nat, y: nat, e: nat)
    requires d < 10 && e < 10 && x * 10 + d == y * 10 + e
    ensures x == y && d == e
  {
  }

  lemma {:induction false} SameLengthNumeralsInjective(a: string, b: string)
    requires IsDigits(a) && IsDigits(b) && |a| == |b|
    requires NumeralValue(a) == NumeralValue(b)
    ensures a == b
    decreases |a|
  {
    if |a| > 0 {
      var n := |a| - 1;
      DigitStepInjective(NumeralValue(a[..n]), DigitValue(a[n]), NumeralValue(b[..n]), DigitValue(b[n]));
      SameLengthNumeralsInjective(a[..n], b[..n]);
      assert a == a[..n] + [a[n]] && b == b[..n] + [b[n]];
    }
  }

  /** Distinct array-index keys have distinct numeric values, so their order is never a tie. */
  lemma ArrayIndexValueInjective(a: string, b: string)
    requires IsArrayIndex(a) && IsArrayIndex(b)
    requires IndexValue(a) == IndexValue(b)
    ensures a == b
  {
    if |a| < |b| {
      ShorterCanonicalNumeralIsSmaller(a, b);
    } else if |b| < |a| {
      ShorterCanonicalNumeralIsSmaller(b, a);
    } else {
      SameLengthNumeralsInjective(a, b);
    }
  }

  lemma ShorterCanonicalNumeralIsSmaller(a: string, b: string)
    requires IsCanonicalNumeral(a) && IsCanonicalNumeral(b) && |a| < |b|
    ensures NumeralValue(a) < NumeralValue(b)
  {
    NumeralBelowPow10(a);
    NumeralAboveLeadingDigit(b);
    Pow10Monotone(|a|, |b| - 1);
    assert DigitValue(b[0]) >= 1;
  }

  lemma {:induction false} Pow10Monotone(m: nat, n: nat)
    requires m <= n
    ensures Pow10(m) <= Pow10(n)
    decreases n
  {
    if m < n {
      Pow10Monotone(m, n - 1);
    }
  }

  /** Keys in non-decreasing numeric order. */
  ghost predicate Ascending(s: seq<string>) {
    forall i, j :: 0 <= i < j < |s| ==> IndexValue(s[i]) <= IndexValue(s[j])
  }

  function Insert(k: string, sorted: seq<string>): (r: seq<string>)
    ensures multiset(r) == multiset(sorted) + multiset{k}
    ensures forall x :: x in r ==> x == k || x in sorted
    ensures Ascending(sorted) ==> Ascending(r)
  {
    if |sorted| == 0 then [k]
    else if IndexValue(k) <= IndexValue(sorted[0]) then [k] + sorted
    else
      var rest := Insert(k, sorted[1..]);
      assert sorted == [sorted[0]] + sorted[1..];
      InsertAfterHead(k, sorted, rest);
      [sorted[0]] + rest
  }

  lemma InsertAfterHead(k: string, sorted: seq<string>, rest: seq<string>)
    requires |sorted| > 0 && IndexValue(sorted[0]) < IndexValue(k)
    requires forall x :: x in rest ==> x == k || x in sorted[1..]
    requires Ascending(sorted[1..]) ==> Ascending(rest)
    ensures Ascending(sorted) ==> Ascending([sorted[0]] + rest)
  {
    if Ascending(sorted) {
      assert Ascending(sorted[1..]);
      var r := [sorted[0]] + rest;
      forall i, j | 0 <= i < j < |r| ensures IndexValue(r[i]) <= IndexValue(r[j]) {
        if i == 0 {
          assert r[j] in rest;
          if r[j] != k {
            var m :| 0 <= m < |sorted[1..]| && sorted[1..][m] == r[j];
            assert sorted[m + 1] == r[j];
          }
        } else {
          assert r[i] == rest[i - 1] && r[j] == rest[j - 1];
        }
      }
    }
  }

  /** Insertion sort of keys by their numeric value. */
  function SortByIndex(ks: seq<string>): (r: seq<string>)
    ensures multiset(r) == multiset(ks)
    ensures Ascending(r)
  {
    if |ks| == 0 then []
    else
      assert ks == [ks[0]] + ks[1..];
      Insert(ks[0], SortByIndex(ks[1..]))
  }

  /** The array-index keys of `ks`, in their original order. */
  function IndexKeys(ks: seq<string>): (r: seq<string>)
    ensures forall x :: x in r <==> x in ks && IsArrayIndex(x)
  {
    if |ks| == 0 then []
    else (if IsArrayIndex(ks[0]) then [ks[0]] else []) + IndexKeys(ks[1..])
  }

  /** The keys of `ks` that are not array indices, in their original order. */
  function NamedKeys(ks: seq<string>): (r: seq<string>)
    ensures forall x :: x in r <==> x in ks && !IsArrayIndex(x)
  {
    if |ks| == 0 then []
    else (if IsArrayIndex(ks[0]) then [] else [ks[0]]) + NamedKeys(ks[1..])
  }

  lemma {:induction false} SplitKeysIsPermutation(ks: seq<string>)
    ensures multiset(IndexKeys(ks)) + multiset(NamedKeys(ks)) == multiset(ks)
    decreases |ks|
  {
    if |ks| > 0 {
      var head, tail := ks[0], ks[1..];
      SplitKeysIsPermutation(tail);
      ConsMultiset(head, tail);
      assert ks == [head] + tail;
      var it, nt := IndexKeys(tail), NamedKeys(tail);
      if IsArrayIndex(head) {
        assert IndexKeys(ks) == [head] + it && NamedKeys(ks) == nt;
        ConsMultiset(head, it);
      } else {
        assert IndexKeys(ks) == it && NamedKeys(ks) == [head] + nt;
        ConsMultiset(head, nt);
      }
    }
  }

  lemma ConsMultiset(x: string, s: seq<string>)
    ensures multiset([x] + s) == multiset{x} + multiset(s)
  {
  }

  lemma {:induction false} NamedKeysOfNamed(ks: seq<string>)
    requires forall i :: 0 <= i < |ks| ==> !IsArrayIndex(ks[i])
    ensures NamedKeys(ks) == ks
    decreases |ks|
  {
    if |ks| > 0 {
      NamedKeysOfNamed(ks[1..]);
      assert ks == [ks[0]] + ks[1..];
    }
  }

  lemma {:induction false} NamedKeysAfterIndices(a: seq<string>, b: seq<string>)
    requires forall i :: 0 <= i < |a| ==> IsArrayIndex(a[i])
    ensures NamedKeys(a + b) == NamedKeys(b)
    decreases |a|
  {
    if |a| > 0 {
      assert (a + b)[1..] == a[1..] + b;
      NamedKeysAfterIndices(a[1..], b);
    } else {
      assert a + b == b;
    }
  }

  /**
   * `Object.keys` order over keys `ks` listed in creation order: a permutation that puts
   * the array indices first, ascending, and leaves the other keys in creation order.
   */
  function OwnKeys(ks: seq<string>): (r: seq<string>)
    ensures multiset(r) == multiset(ks)
    ensures forall i, j :: 0 <= i < j < |r| && IsArrayIndex(r[j]) ==> IsArrayIndex(r[i]) && IndexValue(r[i]) <= IndexValue(r[j])
    ensures NamedKeys(r) == NamedKeys(ks)
  {
    OwnKeysOrder(ks);
    SortByIndex(IndexKeys(ks)) + NamedKeys(ks)
  }

  lemma OwnKeysOrder(ks: seq<string>)
    ensures var r := SortByIndex(IndexKeys(ks)) + NamedKeys(ks);
            && multiset(r) == multiset(ks)
            && (forall i, j :: 0 <= i < j < |r| && IsArrayIndex(r[j]) ==> IsArrayIndex(r[i]) && IndexValue(r[i]) <= IndexValue(r[j]))
            && NamedKeys(r) == NamedKeys(ks)
  {
    var indices := SortByIndex(IndexKeys(ks));
    var named := NamedKeys(ks);
    SplitKeysIsPermutation(ks);
    forall i | 0 <= i < |indices| ensures IsArrayIndex(indices[i]) {
      assert indices[i] in multiset(IndexKeys(ks));
    }
    forall i | 0 <= i < |named| ensures !IsArrayIndex(named[i]) {
      assert named[i] in named;
    }
    NamedKeysAfterIndices(indices, named);
    NamedKeysOfNamed(named);
    var r := indices + named;
    forall i, j | 0 <= i < j < |r| && IsArrayIndex(r[j])
      ensures IsArrayIndex(r[i]) && IndexValue(r[i]) <= IndexValue(r[j])
    {
      assert j < |indices|;
      assert r[i] == indices[i] && r[j] == indices[j];
    }
  }

  lemma OwnKeysMembers(ks: seq<string>)
    ensures forall k :: k in OwnKeys(ks) <==> k in ks
  {
    var o := OwnKeys(ks);
    forall k ensures k in o <==> k in ks {
      assert k in o <==> k in multiset(o);
    }
  }

  /**
   * What `Object.keys(o).find(p)` picks, stated without the sort: among keys satisfying
   * `p`, the array index of least value if there is one, else the first other key in
   * creation order; and nothing exactly when no key satisfies `p`.
   */
  lemma FindInOwnKeys(ks: seq<string>, p: string -> bool)
    ensures JsArray.Find(OwnKeys(ks), p).None? <==> forall k :: k in ks ==> !p(k)
    ensures var r := JsArray.Find(OwnKeys(ks), p);
            r.Some? ==> r.value in ks && p(r.value)
    ensures var r := JsArray.Find(OwnKeys(ks), p);
            r.Some? && IsArrayIndex(r.value) ==>
              forall k :: k in ks && IsArrayIndex(k) && p(k) ==> IndexValue(r.value) <= IndexValue(k)
    ensures var r := JsArray.Find(OwnKeys(ks), p);
            r.Some? && !IsArrayIndex(r.value) ==> forall k :: k in ks && IsArrayIndex(k) ==> !p(k)
    ensures (forall k :: k in ks && IsArrayIndex(k) ==> !p(k)) ==>
              JsArray.Find(OwnKeys(ks), p) == JsArray.Find(NamedKeys(ks), p)
  {
    OwnKeysMembers(ks);
    var r := JsArray.Find(OwnKeys(ks), p);
    if r.Some? {
      FoundKeyIsFirstInOrder(ks, p);
    }
    if forall k :: k in ks && IsArrayIndex(k) ==> !p(k) {
      FindPastIndices(ks, p);
    }
  }

  lemma FoundKeyIsFirstInOrder(ks: seq<string>, p: string -> bool)
    requires JsArray.Find(OwnKeys(ks), p).Some?
    requires forall k :: k in OwnKeys(ks) <==> k in ks
    ensures var r := JsArray.Find(OwnKeys(ks), p);
            IsArrayIndex(r.value) ==>
              forall k :: k in ks && IsArrayIndex(k) && p(k) ==> IndexValue(r.value) <= IndexValue(k)
    ensures var r := JsArray.Find(OwnKeys(ks), p);
            !IsArrayIndex(r.value) ==> forall k :: k in ks && IsArrayIndex(k) ==> !p(k)
  {
    var o := OwnKeys(ks);
    var i := JsArray.FirstIndexWhere(o, p);
    assert JsArray.Find(o, p).value == o[i];
    forall k | k in ks && p(k)
      ensures IsArrayIndex(k) ==> IsArrayIndex(o[i]) && IndexValue(o[i]) <= IndexValue(k)
    {
      var j := LaterPosition(o, i, p, k);
      if j != i {
        KeyOrderAt(o, i, j);
      }
    }
  }

  /** A key satisfying `p` sits at or after the first position that does. */
  lemma LaterPosition(o: seq<string>, i: nat, p: string -> bool, k: string) returns (j: nat)
    requires i <= |o| && forall m :: 0 <= m < i ==> !p(o[m])
    requires k in o && p(k)
    ensures i <= j < |o| && o[j] == k
  {
    j :| 0 <= j < |o| && o[j] == k;
  }

  lemma KeyOrderAt(o: seq<string>, i: nat, j: nat)
    requires i < j < |o|
    requires forall a, b :: 0 <= a < b < |o| && IsArrayIndex(o[b]) ==> IsArrayIndex(o[a]) && IndexValue(o[a]) <= IndexValue(o[b])
    ensures IsArrayIndex(o[j]) ==> IsArrayIndex(o[i]) && IndexValue(o[i]) <= IndexValue(o[j])
  {
  }

  lemma FindPastIndices(ks: seq<string>, p: string -> bool)
    requires forall k :: k in ks && IsArrayIndex(k) ==> !p(k)
    ensures JsArray.Find(OwnKeys(ks), p) == JsArray.Find(NamedKeys(ks), p)
  {
    var indices := SortByIndex(IndexKeys(ks));
    assert OwnKeys(ks) == indices + NamedKeys(ks);
    forall i | 0 <= i < |indices| ensures !p(indices[i]) {
      assert indices[i] in multiset(IndexKeys(ks));
      assert indices[i] in IndexKeys(ks);
    }
    FindSkipsFailingPrefix(indices, NamedKeys(ks), p);
  }

  lemma FindSkipsFailingPrefix(a: seq<string>, b: seq<string>, p: string -> bool)
    requires forall i :: 0 <= i < |a| ==> !p(a[i])
    ensures JsArray.Find(a + b, p) == JsArray.Find(b, p)
  {
    var r, q := JsArray.Find(a + b, p), JsArray.Find(b, p);
    if r.Some? {
      var i :| 0 <= i < |a + b| && (a + b)[i] == r.value && p((a + b)[i]) && forall j :: 0 <= j < i ==> !p((a + b)[j]);
      assert i >= |a|;
      assert q.Some?;
      var m :| 0 <= m < |b| && b[m] == q.value && p(b[m]) && forall j :: 0 <= j < m ==> !p(b[j]);
      assert (a + b)[|a| + m] == b[m];
      assert i - |a| <= m;
      assert b[i - |a|] == (a + b)[i];
    } else {
      forall m | 0 <= m < |b| ensures !p(b[m]) {
        assert (a + b)[|a| + m] == b[m];
      }
    }
  }
}
