/** Vocabulary shared by every component. */
module Common {

  datatype Option<+T> = None | Some(value: T)

  datatype Result<+T, +E> = Ok(value: T) | Err(error: E)

  /** Number of decimal digits of a natural number. */
  function DigitCount(n: nat): nat {
    if n < 10 then 1 else 1 + DigitCount(n / 10)
  }

  /** `a` lists its elements in strictly increasing order. */
  ghost predicate Increasing(a: seq<nat>) {
    forall i, j :: 0 <= i < j < |a| ==> a[i] < a[j]
  }

  /** No element occurs twice. */
  ghost predicate Distinct<T>(a: seq<T>) {
    forall i, j :: 0 <= i < j < |a| ==> a[i] != a[j]
  }

  /** A strictly increasing listing is determined by the set it lists. */
  lemma {:induction false} IncreasingUnique(a: seq<nat>, b: seq<nat>)
    requires Increasing(a) && Increasing(b)
    requires forall x :: x in a <==> x in b
    ensures a == b
    decreases |a|
  {
    assert |a| > 0 ==> a[0] in b;
    assert |b| > 0 ==> b[0] in a;
    if |a| > 0 && |b| > 0 {
      var m, n := |a| - 1, |b| - 1;
      assert a[m] in b && b[n] in a;
      assert a[m] == b[n];
      var a', b' := a[..m], b[..n];
      forall x ensures x in a' <==> x in b' {
        assert x in a' ==> x in a && x != a[m];
        assert x in b' ==> x in b && x != b[n];
        assert a == a' + [a[m]] && b == b' + [b[n]];
      }
      IncreasingUnique(a', b');
      assert a == a' + [a[m]] && b == b' + [b[n]];
    }
  }
}
