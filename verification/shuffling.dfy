/** The Fisher-Yates shuffle: it only permutes, and it can bring about every order. */
module Shuffling {
  import opened Membership

  /** An element at a random position in front of k trades places with the one at k - 1; then the same one further
      down. The random source is any function of the position. */
  function Pick(random: nat -> nat, k: nat): (j: nat)
    requires k > 0
    ensures j < k
  {
    random(k - 1) % k
  }

  function Shuffled<T>(s: seq<T>, k: nat, random: nat -> nat): (r: seq<T>)
    requires k <= |s|
    ensures |r| == |s|
    decreases k
  {
    if k <= 1 then s else Shuffled(Swapped(s, k - 1, Pick(random, k)), k - 1, random)
  }

  lemma ShuffledStep<T>(s: seq<T>, k: nat, i: nat, random: nat -> nat)
    requires 0 < i && k == i + 1 <= |s|
    ensures Shuffled(s, k, random) == Shuffled(Swapped(s, i, Pick(random, k)), i, random)
  {
    assert k - 1 == i;
  }

  lemma SwappedIsPermuted<T>(s: seq<T>, i: nat, j: nat)
    requires i < |s| && j < |s|
    ensures multiset(Swapped(s, i, j)) == multiset(s)
  {
    assert Swapped(s, i, j) == s[i := s[j]][j := s[i]];
  }

  lemma {:induction false} ShuffledIsPermuted<T>(s: seq<T>, k: nat, random: nat -> nat)
    requires k <= |s|
    ensures multiset(Shuffled(s, k, random)) == multiset(s)
    decreases k
  {
    if k > 1 {
      SwappedIsPermuted(s, k - 1, Pick(random, k));
      ShuffledIsPermuted(Swapped(s, k - 1, Pick(random, k)), k - 1, random);
    }
  }

  lemma {:induction false} SameSource<T>(s: seq<T>, k: nat, a: nat -> nat, b: nat -> nat)
    requires k <= |s| && forall i :: 0 <= i < k ==> a(i) == b(i)
    ensures Shuffled(s, k, a) == Shuffled(s, k, b)
    decreases k
  {
    if k > 1 {
      SameSource(Swapped(s, k - 1, Pick(a, k)), k - 1, a, b);
    }
  }

  /** Two lists agree from k on, and in front of it up to their order. */
  ghost predicate AgreeFrom<T(!new)>(s: seq<T>, t: seq<T>, k: nat) {
    k <= |s| == |t| && s[k..] == t[k..] && multiset(s[..k]) == multiset(t[..k])
  }

  lemma SwapAgrees<T(!new)>(s: seq<T>, t: seq<T>, k: nat, m: nat, j: nat)
    requires AgreeFrom(s, t, k) && k == m + 1 && j < k && s[j] == t[m]
    ensures AgreeFrom(Swapped(s, m, j), t, m)
  {
    var r := Swapped(s, m, j);
    FrontSwapped(s, k, m, j);
    SwappedIsPermuted(s[..k], m, j);
    assert r[..k] == r[..m] + [t[m]] && t[..k] == t[..m] + [t[m]];
    Cancel(r[..m], t[..m], t[m]);
    assert r[m..] == [t[m]] + s[k..] && t[m..] == [t[m]] + t[k..];
  }

  lemma FrontSwapped<T>(s: seq<T>, k: nat, m: nat, j: nat)
    requires k <= |s| && m < k && j < k
    ensures Swapped(s, m, j)[..k] == Swapped(s[..k], m, j)
  {
  }

  lemma Cancel<T>(a: seq<T>, b: seq<T>, x: T)
    requires multiset(a + [x]) == multiset(b + [x])
    ensures multiset(a) == multiset(b)
  {
    assert multiset(a) == multiset(a + [x]) - multiset{x};
    assert multiset(b) == multiset(b + [x]) - multiset{x};
  }

  lemma {:induction false} Reach<T(!new)>(s: seq<T>, t: seq<T>, k: nat) returns (random: nat -> nat)
    requires AgreeFrom(s, t, k)
    ensures Shuffled(s, k, random) == t
    decreases k
  {
    if k <= 1 {
      random := x => 0;
      if k == 1 {
        assert s[0] in multiset(s[..1]) && s[0] in multiset(t[..1]);
        assert s == [s[0]] + s[1..] && t == [t[0]] + t[1..];
      }
    } else {
      var m := k - 1;
      var j := Counterpart(s, t, k, m);
      SwapAgrees(s, t, k, m, j);
      var more := Reach(Swapped(s, m, j), t, m);
      random := Redirected(more, m, j);
      RedirectedIs(more, m, j);
      SmallRemainder(j, k);
      SameSource(Swapped(s, m, j), m, more, random);
      ShuffledStep(s, k, m, random);
    }
  }

  lemma Counterpart<T(!new)>(s: seq<T>, t: seq<T>, k: nat, m: nat) returns (j: nat)
    requires AgreeFrom(s, t, k) && k == m + 1
    ensures j < k && s[j] == t[m]
  {
    assert t[m] == t[..k][m] && t[m] in multiset(t[..k]) && t[m] in multiset(s[..k]);
    j :| 0 <= j < k && s[..k][j] == t[m];
  }

  function Redirected(random: nat -> nat, at: nat, j: nat): nat -> nat {
    x => if x == at then j else random(x)
  }

  lemma RedirectedIs(random: nat -> nat, at: nat, j: nat)
    ensures Redirected(random, at, j)(at) == j
    ensures forall x :: 0 <= x < at ==> Redirected(random, at, j)(x) == random(x)
  {
  }

  lemma SmallRemainder(j: nat, k: nat)
    requires j < k
    ensures j % k == j
  {
  }

  /** Every order of a list is the outcome for some random source. */
  lemma EveryOrderIsPossible<T(!new)>(s: seq<T>, t: seq<T>) returns (random: nat -> nat)
    requires multiset(s) == multiset(t)
    ensures Shuffled(s, |s|, random) == t
  {
    assert s[..|s|] == s && t[..|t|] == t;
    assert |s| == |multiset(s)| == |multiset(t)| == |t|;
    random := Reach(s, t, |s|);
  }
}
