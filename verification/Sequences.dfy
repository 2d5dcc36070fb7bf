// Facts about sequences that the solver should not have to rediscover inside larger proofs.
module Sequences {
  lemma Associative<T>(a: seq<T>, b: seq<T>, c: seq<T>)
    ensures a + b + c == a + (b + c)
  {
  }

  lemma NextPrefix<T>(s: seq<T>, k: nat)
    requires k < |s|
    ensures s[..k + 1] == s[..k] + [s[k]]
  {
  }

  lemma FrontAndLast<T>(s: seq<T>)
    requires s != []
    ensures s == s[..|s| - 1] + [s[|s| - 1]]
  {
  }

  lemma TailOfConcat<T>(a: seq<T>, b: seq<T>)
    requires a != []
    ensures (a + b)[0] == a[0] && (a + b)[1..] == a[1..] + b
  {
  }

  lemma SliceOfSlice<T>(s: seq<T>, from: nat, to: nat, i: nat, j: nat)
    requires from <= to <= |s| && i <= j <= to - from
    ensures s[from..to][i..j] == s[from + i..from + j]
  {
    var inner, direct := s[from..to][i..j], s[from + i..from + j];
    forall k | 0 <= k < j - i ensures inner[k] == direct[k] {
      assert inner[k] == s[from..to][i + k] == s[from + (i + k)];
      assert direct[k] == s[(from + i) + k];
    }
    assert |inner| == j - i == |direct|;
    assert inner == direct;
  }

  lemma PartsOfThree<T>(first: T, part: seq<T>, rest: seq<T>)
    ensures ([first] + part + rest)[0] == first
    ensures ([first] + part + rest)[1..1 + |part|] == part
    ensures ([first] + part + rest)[1 + |part|..] == rest
  {
  }
}
