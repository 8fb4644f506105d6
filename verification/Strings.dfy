/** The order of strings, as Go compares them: character by character, shorter first. */
module Strings {
  import opened Sorting

  predicate Less(a: string, b: string)
  {
    if b == [] then false
    else if a == [] then true
    else if a[0] != b[0] then a[0] < b[0]
    else Less(a[1..], b[1..])
  }

  /** At place k the strings part: a ends there, or its character is the smaller. */
  ghost predicate PartsAt(a: string, b: string, k: nat)
  {
    k <= |a| && k < |b| && a[..k] == b[..k] && (k < |a| ==> a[k] < b[k])
  }

  /** A string is less than another exactly when it is a proper prefix of it or has the smaller
      character at the first difference. */
  lemma {:induction false} LessMeans(a: string, b: string)
    ensures Less(a, b) <==> exists k: nat :: PartsAt(a, b, k)
  {
    if b == [] {
    } else if a == [] {
      assert PartsAt(a, b, 0);
    } else if a[0] != b[0] {
      if a[0] < b[0] { assert PartsAt(a, b, 0); }
      forall k: nat | k > 0 ensures !PartsAt(a, b, k) {
        if k <= |a| && k <= |b| { assert a[..k][0] != b[..k][0]; }
      }
    } else {
      LessMeans(a[1..], b[1..]);
      forall k: nat ensures PartsAt(a, b, k + 1) <==> PartsAt(a[1..], b[1..], k) {
        if k < |a| && k < |b| {
          PrefixStep(a, b, k);
        }
      }
      assert !PartsAt(a, b, 0);
      if k: nat :| PartsAt(a, b, k) { assert PartsAt(a[1..], b[1..], k - 1); }
      if k: nat :| PartsAt(a[1..], b[1..], k) { assert PartsAt(a, b, k + 1); }
    }
  }

  lemma PrefixStep(a: string, b: string, k: nat)
    requires k < |a| && k < |b| && a[0] == b[0]
    ensures a[..k + 1] == b[..k + 1] <==> a[1..][..k] == b[1..][..k]
  {
    assert a[..k + 1] == [a[0]] + a[1..][..k] && b[..k + 1] == [b[0]] + b[1..][..k];
    if a[..k + 1] == b[..k + 1] {
      assert a[..k + 1][1..] == b[..k + 1][1..];
    }
  }

  lemma {:induction false} Asymmetric(a: string, b: string)
    ensures Less(a, b) ==> !Less(b, a)
  {
    if a != [] && b != [] && a[0] == b[0] { Asymmetric(a[1..], b[1..]); }
  }

  lemma {:induction false} Transitive(a: string, b: string, c: string)
    ensures !Less(b, a) && !Less(c, b) ==> !Less(c, a)
  {
    if a != [] && b != [] && c != [] && a[0] == b[0] == c[0] { Transitive(a[1..], b[1..], c[1..]); }
  }

  lemma IsOrder()
    ensures Order<string>((a, b) => Less(a, b))
  {
    forall a, b: string ensures Less(a, b) ==> !Less(b, a) { Asymmetric(a, b); }
    forall a, b, c: string ensures !Less(b, a) && !Less(c, b) ==> !Less(c, a) { Transitive(a, b, c); }
  }

  /** Strings that do not differ in the order are equal. */
  lemma {:induction false} Total(a: string, b: string)
    requires !Less(a, b) && !Less(b, a)
    ensures a == b
  {
    if a != [] && b != [] {
      Total(a[1..], b[1..]);
      assert a == [a[0]] + a[1..] && b == [b[0]] + b[1..];
    }
  }
}
