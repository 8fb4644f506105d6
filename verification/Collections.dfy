/** Facts about collections that several parts of the model share. */
module Collections {

  /** The keys of a map, in whatever order the iteration gives them. */
  method KeysOf<K(==, !new), V>(m: map<K, V>) returns (keys: seq<K>)
    ensures (forall k :: k in keys <==> k in m) && forall i, j :: 0 <= i < j < |keys| ==> keys[i] != keys[j]
  {
    keys := [];
    var left := m.Keys;
    while left != {}
      invariant left <= m.Keys && (forall k :: k in keys <==> k in m && k !in left)
      invariant forall i, j :: 0 <= i < j < |keys| ==> keys[i] != keys[j]
      decreases left
    {
      var k :| k in left;
      keys, left := keys + [k], left - {k};
    }
  }

  /** The numbers below n. */
  function Range(n: nat): (r: set<int>)
    ensures forall x :: x in r <==> 0 <= x < n
    ensures |r| == n
  {
    if n == 0 then {} else Range(n - 1) + {n - 1}
  }

  lemma AddsOne<T>(s: set<T>, x: T)
    requires x !in s
    ensures |s + {x}| == |s| + 1
  {
  }

  lemma AtMost(s: set<int>, n: nat)
    requires forall x :: x in s ==> 0 <= x < n
    ensures |s| <= n
  {
    assert s <= Range(n);
    assert |Range(n) - s| == |Range(n)| - |s|;
  }

  /** A set of n numbers below n has them all. */
  lemma FullRange(s: set<int>, n: nat)
    requires (forall x :: x in s ==> 0 <= x < n) && |s| >= n
    ensures forall x :: 0 <= x < n ==> x in s
  {
    assert s <= Range(n);
    assert |Range(n) - s| == |Range(n)| - |s|;
    forall x | 0 <= x < n ensures x in s {
      assert x in Range(n);
      assert x !in Range(n) - s;
    }
  }

  /** A set with fewer than n elements misses a number below n. */
  lemma {:induction false} Missing(s: set<int>, n: nat) returns (i: int)
    requires |s| < n
    ensures 0 <= i < n && i !in s
    decreases n
  {
    if n - 1 !in s {
      i := n - 1;
    } else {
      i := Missing(s - {n - 1}, n - 1);
    }
  }

  lemma {:induction false} OnceEach<T>(s: seq<T>, x: T)
    requires forall i, j :: 0 <= i < j < |s| ==> s[i] != s[j]
    ensures multiset(s)[x] <= 1
  {
    if s == [] {
    } else {
      var k := |s| - 1;
      assert s == s[..k] + [s[k]];
      OnceEach(s[..k], x);
      assert s[k] !in s[..k];
    }
  }

  lemma TwiceCounts<T>(s: seq<T>, i: int, j: int)
    requires 0 <= i < j < |s| && s[i] == s[j]
    ensures multiset(s)[s[i]] >= 2
  {
    assert s == s[..i] + [s[i]] + s[i + 1..j] + [s[j]] + s[j + 1..];
  }
}
