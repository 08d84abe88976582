/**
 The seeded Fisher-Yates shuffle of src/utils/randomgen.h.
 */
module RandomGen {
  import opened Words

  function Swap<T>(s: seq<T>, i: nat, j: nat): (r: seq<T>)
    requires i < |s| && j < |s|
    ensures |r| == |s|
  {
    s[i := s[j]][j := s[i]]
  }

  // The seed behind the k-th draw.
  function SeedAfter(sha3: Bytes -> Hash, seed: Hash, k: nat): Hash {
    if k == 0 then seed else sha3(SeedAfter(sha3, seed, k - 1))
  }

  // One offset per position: draws[i] in [0, |s| - i).
  predicate Draws(draws: seq<nat>, n: nat) {
    |draws| == n && forall i :: 0 <= i < n ==> draws[i] < n - i
  }

  function DrawsOf(sha3: Bytes -> Hash, seed: Hash, n: nat): (d: seq<nat>)
    ensures Draws(d, n)
  {
    seq(n, i requires 0 <= i < n => BE(SeedAfter(sha3, seed, i + 1)) % (n - i))
  }

  // The first k swaps of a shuffle.
  function Shuffled<T>(s: seq<T>, draws: seq<nat>, k: nat): (r: seq<T>)
    requires Draws(draws, |s|) && k <= |s|
    ensures |r| == |s|
  {
    if k == 0 then s else Swap(Shuffled(s, draws, k - 1), k - 1 + draws[k - 1], k - 1)
  }

  lemma NothingDrawn<T>(sha3: Bytes -> Hash, seed: Hash, s: seq<T>, draws: seq<nat>)
    requires Draws(draws, |s|)
    ensures SeedAfter(sha3, seed, 0) == seed && Shuffled(s, draws, 0) == s
  {
  }

  lemma NextDraw<T>(sha3: Bytes -> Hash, seed: Hash, s: seq<T>, i: nat)
    requires i < |s|
    ensures var draws, next := DrawsOf(sha3, seed, |s|), sha3(SeedAfter(sha3, seed, i));
      && next == SeedAfter(sha3, seed, i + 1)
      && Shuffled(s, draws, i + 1) == Swap(Shuffled(s, draws, i), i + BE(next) % (|s| - i), i)
  {
    hide BE, Swap, DrawsOf;
    DrawAt(sha3, seed, |s|, i);
  }

  lemma DrawAt(sha3: Bytes -> Hash, seed: Hash, n: nat, i: nat)
    requires i < n
    ensures DrawsOf(sha3, seed, n)[i] == BE(SeedAfter(sha3, seed, i + 1)) % (n - i)
  {
    hide BE, SeedAfter;
  }

  class RandomGen {
    const sha3: Bytes -> Hash
    var seed: Hash

    constructor (sha3: Bytes -> Hash, seed: Hash)
      ensures this.sha3 == sha3 && this.seed == seed
    {
      this.sha3, this.seed := sha3, seed;
    }

    method SetSeed(seed: Hash)
      modifies this
      ensures this.seed == seed
    {
      this.seed := seed;
    }

    method Shuffle<T>(v: array<T>)
      modifies this, v
      ensures seed == SeedAfter(sha3, old(seed), v.Length)
      ensures v[..] == Shuffled(old(v[..]), DrawsOf(sha3, old(seed), v.Length), v.Length)
    {
      hide BE, Swap, Shuffled, SeedAfter;
      ghost var was := v[..];
      ghost var draws := DrawsOf(sha3, seed, v.Length);
      NothingDrawn(sha3, seed, was, draws);
      for i := 0 to v.Length
        invariant seed == SeedAfter(sha3, old(seed), i)
        invariant v[..] == Shuffled(was, draws, i)
      {
        NextDraw(sha3, old(seed), was, i);
        seed := sha3(seed);
        var n := i + BE(seed) % (v.Length - i);
        SwapCells(v, n, i);
      }
    }

    method SwapCells<T>(v: array<T>, i: nat, j: nat)
      requires i < v.Length && j < v.Length
      modifies v
      ensures v[..] == Swap(old(v[..]), i, j)
    {
      v[i], v[j] := v[j], v[i];
    }
  }

  // ------------------------------------------------------------ what a shuffle keeps

  lemma SwapPermutes<T>(s: seq<T>, i: nat, j: nat)
    requires i < |s| && j < |s|
    ensures multiset(Swap(s, i, j)) == multiset(s)
  {
    var once := s[i := s[j]];
    assert multiset(once) == multiset(s)[s[i] := multiset(s)[s[i]] - 1] + multiset{s[j]};
    assert once[j] == s[j];
  }

  lemma {:induction false} ShufflePermutes<T>(s: seq<T>, draws: seq<nat>, k: nat)
    requires Draws(draws, |s|) && k <= |s|
    ensures multiset(Shuffled(s, draws, k)) == multiset(s)
  {
    hide Swap;
    if k > 0 {
      ShufflePermutes(s, draws, k - 1);
      SwapPermutes(Shuffled(s, draws, k - 1), k - 1 + draws[k - 1], k - 1);
    }
  }

  predicate Distinct<T(==)>(s: seq<T>) {
    forall i, j :: 0 <= i < j < |s| ==> s[i] != s[j]
  }

  lemma SwapKeepsDistinct<T>(s: seq<T>, i: nat, j: nat)
    requires i < |s| && j < |s| && Distinct(s)
    ensures Distinct(Swap(s, i, j))
  {
  }

  lemma {:induction false} ShuffleKeepsDistinct<T>(s: seq<T>, draws: seq<nat>, k: nat)
    requires Draws(draws, |s|) && k <= |s| && Distinct(s)
    ensures Distinct(Shuffled(s, draws, k))
  {
    if k > 0 {
      ShuffleKeepsDistinct(s, draws, k - 1);
      SwapKeepsDistinct(Shuffled(s, draws, k - 1), k - 1 + draws[k - 1], k - 1);
    }
  }

  // A position is settled once its own swap is done.
  lemma {:induction false} Settled<T>(s: seq<T>, draws: seq<nat>, k: nat, m: nat)
    requires Draws(draws, |s|) && k <= m <= |s|
    ensures Shuffled(s, draws, m)[..k] == Shuffled(s, draws, k)[..k]
    decreases m
  {
    if k < m {
      Settled(s, draws, k, m - 1);
    }
  }

  lemma SettledElement<T>(s: seq<T>, draws: seq<nat>, k: nat)
    requires Draws(draws, |s|) && k < |s|
    ensures Shuffled(s, draws, |s|)[k] == Shuffled(s, draws, k)[k + draws[k]]
  {
    Settled(s, draws, k + 1, |s|);
    assert Shuffled(s, draws, |s|)[..k + 1][k] == Shuffled(s, draws, k + 1)[..k + 1][k];
  }

  // Different draws give different orders...
  lemma {:induction false} DrawsAreDetermined<T>(s: seq<T>, d: seq<nat>, e: seq<nat>, k: nat)
    requires Distinct(s) && Draws(d, |s|) && Draws(e, |s|) && k <= |s|
    requires Shuffled(s, d, |s|) == Shuffled(s, e, |s|)
    ensures d[..k] == e[..k]
  {
    hide Shuffled;
    if k > 0 {
      var i := k - 1;
      DrawsAreDetermined(s, d, e, i);
      SameDraws(s, d, e, i);
      SettledElement(s, d, i);
      SettledElement(s, e, i);
      ShuffleKeepsDistinct(s, d, i);
      assert d[i] == e[i];
    }
  }

  // ...and every order is reached by some draws: every order by exactly one sequence of draws.
  lemma EveryOrderIsReached<T>(s: seq<T>, p: seq<T>) returns (d: seq<nat>)
    requires multiset(s) == multiset(p)
    ensures Draws(d, |s|) && Shuffled(s, d, |s|) == p
  {
    assert |multiset(s)| == |s| && |multiset(p)| == |p|;
    d := DrawsTowards(s, p, |s|);
  }

  ghost predicate Reaches<T>(s: seq<T>, p: seq<T>, d: seq<nat>, k: nat)
    requires |s| == |p| && k <= |s|
  {
    Draws(d, |s|) && Shuffled(s, d, k)[..k] == p[..k]
  }

  lemma {:induction false} DrawsTowards<T>(s: seq<T>, p: seq<T>, k: nat) returns (d: seq<nat>)
    requires multiset(s) == multiset(p) && |s| == |p| && k <= |s|
    ensures Reaches(s, p, d, k)
  {
    hide Shuffled, Swap;
    if k == 0 {
      d := seq(|s|, _ => 0);
    } else {
      d := DrawsTowards(s, p, k - 1);
      ShufflePermutes(s, d, k - 1);
      var n := FindRest(Shuffled(s, d, k - 1), p, k - 1);
      d := DrawNext(s, p, d, k - 1, n);
    }
  }

  lemma DrawNext<T>(s: seq<T>, p: seq<T>, e: seq<nat>, k: nat, n: nat) returns (d: seq<nat>)
    requires |s| == |p| && k <= n < |s| && Reaches(s, p, e, k) && Shuffled(s, e, k)[n] == p[k]
    ensures Reaches(s, p, d, k + 1)
  {
    d := e[k := n - k];
    assert d[..k] == e[..k];
    SameDraws(s, e, d, k);
    SettleNext(Shuffled(s, e, k), p, n, k);
  }

  lemma SettleNext<T>(a: seq<T>, p: seq<T>, n: nat, k: nat)
    requires |a| == |p| && k <= n < |a| && a[..k] == p[..k] && a[n] == p[k]
    ensures Swap(a, n, k)[..k + 1] == p[..k + 1]
  {
    assert Swap(a, n, k)[..k] == a[..k];
    assert p[..k + 1] == p[..k] + [p[k]];
  }

  lemma {:induction false} SameDraws<T>(s: seq<T>, d: seq<nat>, e: seq<nat>, k: nat)
    requires Draws(d, |s|) && Draws(e, |s|) && k <= |s| && d[..k] == e[..k]
    ensures Shuffled(s, d, k) == Shuffled(s, e, k)
  {
    if k > 0 {
      assert d[..k - 1] == d[..k][..k - 1] == e[..k - 1];
      SameDraws(s, d, e, k - 1);
      assert d[k - 1] == d[..k][k - 1] == e[..k][k - 1] == e[k - 1];
    }
  }

  lemma FindRest<T>(a: seq<T>, p: seq<T>, k: nat) returns (n: nat)
    requires multiset(a) == multiset(p) && k < |p| == |a| && a[..k] == p[..k]
    ensures k <= n < |a| && a[n] == p[k]
  {
    assert a == a[..k] + a[k..] && p == p[..k] + p[k..];
    assert multiset(a) == multiset(p[..k]) + multiset(a[k..]);
    assert multiset(p) == multiset(p[..k]) + multiset(p[k..]);
    assert multiset(a[k..]) == multiset(p) - multiset(p[..k]) == multiset(p[k..]);
    assert p[k] == p[k..][0];
    assert p[k] in multiset(p[k..]);
    assert p[k] in a[k..];
    var m :| 0 <= m < |a[k..]| && a[k..][m] == p[k];
    n := k + m;
  }
}
