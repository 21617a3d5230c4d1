/** Sequences read element by element, and sequences with elements lost. */
module Sequences {

  /** What `f` finds in the elements of `s`, in order. */
  function Collect<T, U>(f: T -> seq<U>, s: seq<T>): seq<U> {
    if s == [] then [] else Collect(f, s[..|s| - 1]) + f(s[|s| - 1])
  }

  lemma {:induction false} CollectConcat<T, U>(f: T -> seq<U>, a: seq<T>, b: seq<T>)
    ensures Collect(f, a + b) == Collect(f, a) + Collect(f, b)
  {
    if b == [] {
      assert a + b == a;
    } else {
      CollectConcat(f, a, b[..|b| - 1]);
      assert (a + b)[..|a + b| - 1] == a + b[..|b| - 1];
    }
  }

  lemma CollectOne<T, U>(f: T -> seq<U>, x: T)
    ensures Collect(f, [x]) == f(x)
  {
    assert [x][..0] == [];
  }

  /** Where `f` finds nothing in any element it finds nothing at all. */
  lemma {:induction false} CollectNothing<T, U>(f: T -> seq<U>, s: seq<T>)
    requires forall i :: 0 <= i < |s| ==> f(s[i]) == []
    ensures Collect(f, s) == []
  {
    if s != [] {
      CollectNothing(f, s[..|s| - 1]);
    }
  }

  /** The elements of `s` at the positions that `keep` accepts. */
  function Sieve<T>(keep: nat -> bool, s: seq<T>): seq<T> {
    if s == [] then [] else Sieve(keep, s[..|s| - 1]) + if keep(|s| - 1) then [s[|s| - 1]] else []
  }

  lemma SieveStep<T>(keep: nat -> bool, s: seq<T>, i: nat)
    requires i < |s|
    ensures Sieve(keep, s[..i + 1]) == Sieve(keep, s[..i]) + if keep(i) then [s[i]] else []
  {
    assert s[..i + 1][..i] == s[..i];
  }

  /** `f` finds the same in what is kept if and only if it finds nothing in what is lost. */
  lemma {:induction false} CollectSieve<T, U>(f: T -> seq<U>, keep: nat -> bool, s: seq<T>)
    ensures |Collect(f, Sieve(keep, s))| <= |Collect(f, s)|
    ensures Collect(f, Sieve(keep, s)) == Collect(f, s) <==> forall i :: 0 <= i < |s| && !keep(i) ==> f(s[i]) == []
  {
    if s != [] {
      var pre, x := s[..|s| - 1], s[|s| - 1];
      CollectSieve(f, keep, pre);
      if keep(|s| - 1) {
        CollectConcat(f, Sieve(keep, pre), [x]);
        CollectOne(f, x);
        SameTail(Collect(f, Sieve(keep, pre)), Collect(f, pre), f(x));
      } else {
        assert Sieve(keep, s) == Sieve(keep, pre) + [] == Sieve(keep, pre);
        assert Collect(f, s) == Collect(f, pre) + f(x);
      }
    }
  }

  lemma SameTail<T>(a: seq<T>, b: seq<T>, tail: seq<T>)
    ensures a + tail == b + tail <==> a == b
  {
    if a + tail == b + tail {
      assert a == (a + tail)[..|a|] && b == (b + tail)[..|a|];
    }
  }

  /** Every element of this kind is kept. */
  ghost predicate NoneLost<T>(keeps: nat -> bool, s: seq<T>, kind: T -> bool) {
    forall i :: 0 <= i < |s| && kind(s[i]) ==> keeps(i)
  }

  lemma ReadIffNoneLost<T, U>(f: T -> seq<U>, kind: T -> bool, keeps: nat -> bool, s: seq<T>)
    requires forall i :: 0 <= i < |s| ==> (f(s[i]) != [] <==> kind(s[i]))
    ensures Collect(f, Sieve(keeps, s)) == Collect(f, s) <==> NoneLost(keeps, s, kind)
  {
    CollectSieve(f, keeps, s);
  }
}
