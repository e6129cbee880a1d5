/**
 * The reshuffling of `getRandomDistribution` (lines 325-329): numpy's in-place Fisher-Yates
 * shuffle of all subjects, after which the first `len(group1)` subjects form one random group
 * and the next `len(group2)` the other.
 */
module Shuffling {
  /** Exchange two entries. */
  function Swap<T>(s: seq<T>, i: nat, j: nat): (r: seq<T>)
    requires i < |s| && j < |s|
    ensures |r| == |s|
  {
    s[i := s[j]][j := s[i]]
  }

  lemma SwapPermutes<T>(s: seq<T>, i: nat, j: nat)
    requires i < |s| && j < |s|
    ensures multiset(Swap(s, i, j)) == multiset(s)
  {
  }

  /**
   * numpy's `shuffle` (Fisher-Yates): for i from the last position down to 1, exchange
   * entry i with entry `rng(round, i) % (i + 1)`. `rng` stands for the random state.
   */
  function FisherYates<T>(s: seq<T>, rng: (nat, nat) -> nat, round: nat, i: nat): seq<T>
    requires i < |s|
    decreases i
  {
    if i == 0 then s
    else FisherYates(Swap(s, i, rng(round, i) % (i + 1)), rng, round, i - 1)
  }

  function Shuffled<T>(s: seq<T>, rng: (nat, nat) -> nat, round: nat): seq<T>
  {
    if s == [] then s else FisherYates(s, rng, round, |s| - 1)
  }

  /** A shuffle only reorders: same length, same subjects with the same multiplicities. */
  lemma {:induction false} FisherYatesPermutes<T>(s: seq<T>, rng: (nat, nat) -> nat, round: nat, i: nat)
    requires i < |s|
    ensures |FisherYates(s, rng, round, i)| == |s|
    ensures multiset(FisherYates(s, rng, round, i)) == multiset(s)
    decreases i
  {
    if i > 0 {
      var j := rng(round, i) % (i + 1);
      SwapPermutes(s, i, j);
      FisherYatesPermutes(Swap(s, i, rng(round, i) % (i + 1)), rng, round, i - 1);
    }
  }

  lemma ShuffledPermutes<T>(s: seq<T>, rng: (nat, nat) -> nat, round: nat)
    ensures |Shuffled(s, rng, round)| == |s|
    ensures multiset(Shuffled(s, rng, round)) == multiset(s)
  {
    if s != [] {
      FisherYatesPermutes(s, rng, round, |s| - 1);
    }
  }

  /** The list after the shuffles of rounds 0 .. n-1: the shuffles accumulate across rounds. */
  function ShuffledRounds<T>(s: seq<T>, rng: (nat, nat) -> nat, n: nat): seq<T>
    decreases n
  {
    if n == 0 then s else Shuffled(ShuffledRounds(s, rng, n - 1), rng, n - 1)
  }

  lemma {:induction false} ShuffledRoundsPermutes<T>(s: seq<T>, rng: (nat, nat) -> nat, n: nat)
    ensures |ShuffledRounds(s, rng, n)| == |s|
    ensures multiset(ShuffledRounds(s, rng, n)) == multiset(s)
    decreases n
  {
    if n > 0 {
      ShuffledRoundsPermutes(s, rng, n - 1);
      ShuffledPermutes(ShuffledRounds(s, rng, n - 1), rng, n - 1);
    }
  }

  /** `np.random.shuffle(allSubjects)`, in place, proved against `Shuffled`. */
  method Shuffle<T>(a: array<T>, rng: (nat, nat) -> nat, round: nat)
    modifies a
    ensures a[..] == Shuffled(old(a[..]), rng, round)
  {
    if a.Length == 0 {
      return;
    }
    var i := a.Length - 1;
    while i > 0
      invariant 0 <= i < a.Length
      invariant FisherYates(a[..], rng, round, i) == Shuffled(old(a[..]), rng, round)
    {
      var j := rng(round, i) % (i + 1);
      ghost var before := a[..];
      a[i], a[j] := a[j], a[i];
      assert a[..] == Swap(before, i, j);
      assert FisherYates(before, rng, round, i) == FisherYates(Swap(before, i, j), rng, round, i - 1);
      i := i - 1;
    }
  }

  /** The two groups of one round: the shuffled subjects cut at the original group sizes (lines 328-329). */
  lemma RandomGroupsRepartition<T>(all: seq<T>, group1: seq<T>, group2: seq<T>)
    requires multiset(all) == multiset(group1 + group2) && |all| == |group1 + group2|
    ensures |all[..|group1|]| == |group1| && |all[|group1|..|group1| + |group2|]| == |group2|
    ensures multiset(all[..|group1|] + all[|group1|..|group1| + |group2|]) == multiset(group1 + group2)
  {
    assert all[..|group1|] + all[|group1|..|group1| + |group2|] == all;
  }
}
