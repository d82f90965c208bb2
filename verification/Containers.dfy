/** What the standard library does: optional values, the first key of an ordered
    container, and insertion that keeps what is there. */
module Containers {

  datatype Option<T> = None | Some(value: T)

  ghost predicate IsLeast(s: set<nat>, m: nat) {
    m in s && forall x :: x in s ==> m <= x
  }

  method First(s: set<nat>) returns (m: nat)
    requires s != {}
    ensures IsLeast(s, m)
  {
    var rest := s;
    m :| m in rest;
    rest := rest - {m};
    while rest != {}
      invariant m in s
      invariant forall x :: x in s ==> x in rest || m <= x
      invariant forall x :: x in rest ==> x in s
      decreases |rest|
    {
      var x :| x in rest;
      if x < m {
        m := x;
      }
      rest := rest - {x};
    }
  }

  /** std::map::emplace: an entry that is there already stays. */
  function Emplaced<K, V>(m: map<K, V>, k: K, v: V): map<K, V> {
    if k in m then m else m[k := v]
  }
}
