/** Strings in the order Python compares them: by code point, a proper prefix first. */
module Ordering {
  predicate AtMost(a: string, b: string) {
    if a == [] then true
    else if b == [] then false
    else a[0] < b[0] || (a[0] == b[0] && AtMost(a[1..], b[1..]))
  }

  lemma {:induction false} AtMostIsTotal(a: string, b: string)
    ensures AtMost(a, b) || AtMost(b, a)
  {
    if a != [] && b != [] {
      AtMostIsTotal(a[1..], b[1..]);
    }
  }

  lemma {:induction false} AtMostIsAntisymmetric(a: string, b: string)
    requires AtMost(a, b) && AtMost(b, a)
    ensures a == b
  {
    if a != [] && b != [] {
      AtMostIsAntisymmetric(a[1..], b[1..]);
      assert a == [a[0]] + a[1..] && b == [b[0]] + b[1..];
    }
  }

  lemma {:induction false} AtMostIsTransitive(a: string, b: string, c: string)
    requires AtMost(a, b) && AtMost(b, c)
    ensures AtMost(a, c)
  {
    if a != [] && b != [] && c != [] && a[0] == b[0] == c[0] {
      AtMostIsTransitive(a[1..], b[1..], c[1..]);
    }
  }

  /** The first `n` characters are the same. */
  predicate Agree(a: string, b: string, n: nat) {
    n <= |a| && n <= |b| && a[..n] == b[..n]
  }

  /** A string comes first when it is the start of the other, or has the smaller character where they first
      differ. */
  lemma {:induction false} AtMostMeans(a: string, b: string)
    ensures AtMost(a, b) <==> exists n: nat :: Agree(a, b, n) && (n == |a| || (n < |b| && a[n] < b[n]))
  {
    if a == [] {
      assert Agree(a, b, 0);
    } else if b == [] {
      assert forall n: nat :: Agree(a, b, n) ==> n == 0;
    } else {
      AtMostMeans(a[1..], b[1..]);
      if AtMost(a, b) {
        if a[0] < b[0] {
          assert Agree(a, b, 0);
        } else {
          var n: nat :| Agree(a[1..], b[1..], n) && (n == |a[1..]| || (n < |b[1..]| && a[1..][n] < b[1..][n]));
          AgreeOneMore(a, b, n);
        }
      }
      if n: nat :| Agree(a, b, n) && (n == |a| || (n < |b| && a[n] < b[n])) {
        if n > 0 {
          assert a[0] == a[..n][0] == b[..n][0] == b[0];
          assert a[1..][..n - 1] == a[..n][1..] && b[1..][..n - 1] == b[..n][1..];
          assert Agree(a[1..], b[1..], n - 1);
        }
      }
    }
  }

  lemma AgreeOneMore(a: string, b: string, n: nat)
    requires a != [] && b != [] && a[0] == b[0] && Agree(a[1..], b[1..], n)
    ensures Agree(a, b, n + 1)
  {
    assert a[..n + 1] == [a[0]] + a[1..][..n] && b[..n + 1] == [b[0]] + b[1..][..n];
  }
}
