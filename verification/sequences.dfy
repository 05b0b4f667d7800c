/** Facts about sequences that the verifier does not volunteer. */
module Sequences {
  lemma Associative<T>(a: seq<T>, b: seq<T>, c: seq<T>)
    ensures a + (b + c) == (a + b) + c
  {
  }

  lemma EmptyIsUnit<T>(s: seq<T>)
    ensures [] + s == s && s + [] == s
  {
  }

  /** t stands in s at position p. */
  predicate At<T(==)>(s: seq<T>, p: nat, t: seq<T>) {
    p + |t| <= |s| && forall i :: 0 <= i < |t| ==> s[p + i] == t[i]
  }

  lemma AtPoint<T>(s: seq<T>, p: nat, t: seq<T>, i: nat)
    requires At(s, p, t) && i < |t|
    ensures p + i < |s| && s[p + i] == t[i]
  {
  }

  lemma AtHead<T>(s: seq<T>, p: nat, a: seq<T>, b: seq<T>)
    requires At(s, p, a + b)
    ensures At(s, p, a)
  {
    assert forall i :: 0 <= i < |a| ==> s[p + i] == (a + b)[i] == a[i];
  }

  lemma AtTail<T>(s: seq<T>, p: nat, a: seq<T>, b: seq<T>)
    requires At(s, p, a + b)
    ensures At(s, p + |a|, b)
  {
    forall i | 0 <= i < |b| ensures s[p + |a| + i] == b[i] {
      assert s[p + (|a| + i)] == (a + b)[|a| + i] == b[i];
    }
  }

  lemma AtIsSlice<T>(s: seq<T>, p: nat, t: seq<T>)
    ensures At(s, p, t) <==> p + |t| <= |s| && s[p..p + |t|] == t
  {
    if p + |t| <= |s| {
      var part := s[p..p + |t|];
      assert forall i :: 0 <= i < |t| ==> part[i] == s[p + i];
    }
  }

  lemma AtBehind<T>(s: seq<T>, t: seq<T>, more: seq<T>)
    ensures At(s + t + more, |s|, t)
  {
    assert forall i :: 0 <= i < |t| ==> (s + t)[|s| + i] == t[i];
  }

  lemma SuffixSplits<T>(s: seq<T>, p: nat, a: seq<T>, b: seq<T>)
    requires p <= |s| && s[p..] == a + b
    ensures At(s, p, a) && p + |a| <= |s| && s[p + |a|..] == b
  {
    var rest := s[p..];
    assert forall i :: 0 <= i < |a| ==> rest[i] == s[p + i];
    assert s[p + |a|..] == rest[|a|..];
  }

  function Concat<T>(parts: seq<seq<T>>): seq<T> {
    if parts == [] then [] else parts[0] + Concat(parts[1..])
  }
}
