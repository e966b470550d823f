/** What the modules share. */
module Common {

  datatype Option<T> = None | Some(value: T)

  function Lookup<K, V>(m: map<K, V>, k: K): Option<V> {
    if k in m then Some(m[k]) else None
  }

  function RemoveAt<T>(s: seq<T>, i: nat): (r: seq<T>)
    requires i < |s|
    ensures |r| == |s| - 1
    ensures forall j :: 0 <= j < |r| ==> r[j] == if j < i then s[j] else s[j + 1]
  {
    s[..i] + s[i + 1..]
  }

  /** The elements that satisfy the predicate, in their order. */
  function Filter<T>(keep: T -> bool, s: seq<T>): seq<T> {
    if s == [] then []
    else
      var n := |s| - 1;
      if keep(s[n]) then Filter(keep, s[..n]) + [s[n]] else Filter(keep, s[..n])
  }

  function Map<T, U>(f: T -> U, s: seq<T>): seq<U> {
    seq(|s|, i requires 0 <= i < |s| => f(s[i]))
  }

  lemma MulMonotone(a: int, b: int, c: nat)
    requires a <= b
    ensures a * c <= b * c
  {
    assert (b - a) * c >= 0;
  }

  /** A property that each step keeps exactly when a guard holds, holds throughout exactly when all guards do. */
  lemma {:induction false} ThroughoutExactly(n: nat, p: nat -> bool, q: nat -> bool)
    requires p(0)
    requires forall i: nat :: i < n && p(i) ==> (p(i + 1) <==> q(i))
    ensures (forall i: nat :: i <= n ==> p(i)) <==> (forall i: nat :: i < n ==> q(i))
  {
    if n > 0 {
      ThroughoutExactly(n - 1, p, q);
      if forall i: nat :: i < n ==> q(i) {
        assert q(n - 1) && p(n - 1) && p(n - 1 + 1);
      }
      if forall i: nat :: i <= n ==> p(i) {
        assert p(n - 1) && p(n - 1 + 1);
      }
    }
  }
}
