/** Ranking of a population by fitness, best first (`sort`), and the culling of
    the oversized initial population to the working size. */
module Ranking {
  import opened Population

  /** Fitness is non-increasing along the population. */
  predicate SortedDesc(p: seq<Member>) {
    forall i, j :: 0 <= i < j < |p| ==> p[i].fitness >= p[j].fitness
  }

  /** Inserts `m` into a ranked population, before the first member it is at
      least as fit as. */
  function Insert(m: Member, s: seq<Member>): (r: seq<Member>)
    requires SortedDesc(s)
    ensures SortedDesc(r)
    ensures multiset(r) == multiset(s) + multiset{m}
    ensures |r| == |s| + 1
    ensures r[0] == m || (|s| > 0 && r[0] == s[0])
  {
    if |s| == 0 then [m]
    else if m.fitness >= s[0].fitness then [m] + s
    else
      var rest := Insert(m, s[1..]);
      assert s == [s[0]] + s[1..];
      ConsSorted(s[0], rest);
      [s[0]] + rest
  }

  /** A member at least as fit as the head of a ranked population may go in front. */
  lemma ConsSorted(x: Member, rest: seq<Member>)
    requires SortedDesc(rest) && (|rest| > 0 ==> x.fitness >= rest[0].fitness)
    ensures SortedDesc([x] + rest)
  {
    var r := [x] + rest;
    forall i, j | 0 <= i < j < |r|
      ensures r[i].fitness >= r[j].fitness
    {
      if i == 0 {
        assert r[j] == rest[j - 1];
      } else {
        assert r[i] == rest[i - 1] && r[j] == rest[j - 1];
      }
    }
  }

  /** Ranks a population: a permutation of it whose fitness never increases.
      This insertion sort is stable, so it fixes one order among members of
      equal fitness; the library sort of the program may choose another. The
      properties of ranking used elsewhere rest only on this contract. */
  function Sort(p: seq<Member>): (r: seq<Member>)
    ensures SortedDesc(r)
    ensures multiset(r) == multiset(p)
    ensures |r| == |p|
  {
    if |p| == 0 then []
    else
      assert p == [p[0]] + p[1..];
      Insert(p[0], Sort(p[1..]))
  }

  /** The head of a ranked permutation is at least as fit as every member. */
  lemma SortedHeadIsBest(p: seq<Member>, r: seq<Member>)
    requires SortedDesc(r) && multiset(r) == multiset(p) && |p| > 0
    ensures |r| > 0
    ensures forall k :: 0 <= k < |p| ==> p[k].fitness <= r[0].fitness
  {
    assert |r| == |multiset(r)| == |multiset(p)| == |p|;
    forall k | 0 <= k < |p|
      ensures p[k].fitness <= r[0].fitness
    {
      assert p[k] in multiset(p);
      assert p[k] in multiset(r);
      var j :| 0 <= j < |r| && r[j] == p[k];
      assert j == 0 || r[0].fitness >= r[j].fitness;
    }
  }

  /** A property every member of `p` has is had by every member of a permutation of `p`. */
  lemma PermutationKeeps(p: seq<Member>, r: seq<Member>, P: Member -> bool)
    requires multiset(r) == multiset(p)
    requires forall k :: 0 <= k < |p| ==> P(p[k])
    ensures forall k :: 0 <= k < |r| ==> P(r[k])
  {
    forall k | 0 <= k < |r|
      ensures P(r[k])
    {
      assert r[k] in multiset(r);
      assert r[k] in multiset(p);
      var j :| 0 <= j < |p| && p[j] == r[k];
    }
  }

  /** Keeps the first `PopSize` members (`std::copy` of the first POPSIZE). */
  function Cull(p: seq<Member>): (r: seq<Member>)
    requires |p| >= PopSize
    ensures |r| == PopSize
    ensures forall k :: 0 <= k < PopSize ==> r[k] == p[k]
  {
    p[..PopSize]
  }

  /** Culling a ranked population keeps the fittest: the kept members are
      ranked, and none is less fit than any discarded member. */
  lemma CullKeepsFittest(p: seq<Member>)
    requires SortedDesc(p) && |p| >= PopSize
    ensures SortedDesc(Cull(p))
    ensures forall i, j :: 0 <= i < PopSize <= j < |p| ==> Cull(p)[i].fitness >= p[j].fitness
  {
  }
}
