/** Results that may be absent, known prefixes, and sizes of subsets. */
module Wrappers {

  datatype Option<+T> = None | Some(value: T) {
    predicate IsFailure() {
      None?
    }

    function PropagateFailure<U>(): Option<U>
      requires None?
    {
      None
    }

    function Extract(): T
      requires Some?
    {
      value
    }
  }

  /** What follows a known start, if s starts so. */
  function Strip<T(==)>(prefix: seq<T>, s: seq<T>): Option<seq<T>> {
    if prefix <= s then Some(s[|prefix|..]) else None
  }

  lemma StripInverts<T>(prefix: seq<T>, rest: seq<T>)
    ensures Strip(prefix, prefix + rest) == Some(rest)
  {
    assert (prefix + rest)[|prefix|..] == rest;
  }

  lemma SubsetSize<T>(a: set<T>, b: set<T>)
    requires a <= b
    ensures |a| <= |b|
    ensures |a| == |b| ==> a == b
  {
    assert b == a + (b - a);
    assert |b| == |a| + |b - a|;
    if |a| == |b| {
      assert b - a == {};
    }
  }
}
