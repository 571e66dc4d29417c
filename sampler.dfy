/**
 * Sampling without replacement as the generate handler does it: a list of the
 * indices [0, N) from which each pass removes one randomly drawn entry with
 * `splice`, appending the record at that original index to the selection.
 */
module Sampler {
  /** A value `Math.random()` can return. */
  type UnitReal = r: real | 0.0 <= r < 1.0

  /** `Math.min(count, n)`: the bound the loop counter is compared against. */
  function Limit(count: real, n: nat): (limit: real)
    ensures limit <= count && limit <= n as real
    ensures limit == count || limit == n as real
  {
    if count < n as real then count else n as real
  }

  /**
   * The number of passes `for (let i = 0; i < limit; i++)` makes: the least
   * natural number that is not below `Limit(count, n)`.
   */
  function Quota(count: real, n: nat): (q: nat)
    ensures q <= n
    ensures q as real >= Limit(count, n)
    ensures q == 0 || (q - 1) as real < Limit(count, n)
  {
    var limit := Limit(count, n);
    if limit <= 0.0 then 0
    else if limit.Floor as real == limit then limit.Floor
    else limit.Floor + 1
  }

  /** A whole count selects that many records, clamped to the dataset. */
  lemma QuotaOfWholeCount(count: int, n: nat)
    ensures count <= 0 ==> Quota(count as real, n) == 0
    ensures 0 <= count <= n ==> Quota(count as real, n) == count
    ensures count >= n ==> Quota(count as real, n) == n
  {}

  /** A fractional count below the dataset size selects one record more than its whole part. */
  lemma QuotaOfFractionalCount(count: real, n: nat)
    requires 0.0 < count < n as real && count.Floor as real != count
    ensures Quota(count, n) == count.Floor + 1
  {}

  /** `[...Array(n).keys()]`. */
  function Indices(n: nat): (r: seq<nat>)
    ensures |r| == n && forall j | 0 <= j < n :: r[j] == j
    ensures forall x: int :: x in r <==> 0 <= x < n
    ensures Distinct(r)
  {
    var r: seq<nat> := seq(n, i => i);
    assert forall x: int :: x in r <==> 0 <= x < n by {
      forall x: int ensures x in r <==> 0 <= x < n {
        if 0 <= x < n {
          assert r[x] == x;
        }
      }
    }
    r
  }

  predicate Distinct(s: seq<nat>)
  {
    forall a, b | 0 <= a < b < |s| :: s[a] != s[b]
  }

  /** `Math.floor(Math.random() * len)`: a position in a list of length `len`. */
  function DrawIndex(r: UnitReal, len: nat): (k: nat)
    requires len > 0
    ensures k < len
  {
    var x := r * len as real;
    assert 0.0 <= x < len as real by {
      assert (1.0 - r) * len as real > 0.0;
    }
    x.Floor
  }

  /** `s.splice(k, 1)` on `s`: the list that remains once entry `k` is removed. */
  function Splice(s: seq<nat>, k: nat): (r: seq<nat>)
    requires k < |s|
    ensures |r| == |s| - 1
  {
    s[..k] + s[k+1..]
  }

  /** Splicing removes exactly the entry at `k` and shifts the later ones down by one. */
  lemma SpliceRemovesOne(s: seq<nat>, k: nat)
    requires k < |s|
    ensures multiset(Splice(s, k)) + multiset{s[k]} == multiset(s)
  {
    assert s == s[..k] + [s[k]] + s[k+1..];
  }

  /** Entries before `k` keep their position; later ones move down by one. */
  lemma SpliceAt(s: seq<nat>, k: nat, j: nat)
    requires k < |s| && j < |s| - 1
    ensures Splice(s, k)[j] == if j < k then s[j] else s[j + 1]
  {}

  /** Splicing a list without repeats leaves one without repeats that holds every entry but the removed one. */
  lemma SpliceKeepsDistinct(s: seq<nat>, k: nat)
    requires k < |s| && Distinct(s)
    ensures Distinct(Splice(s, k))
    ensures forall x :: x in Splice(s, k) <==> x in s && x != s[k]
  {}

  /** The loop's state after some passes: `availableIndices` and the original indices chosen so far. */
  datatype Pass = Pass(available: seq<nat>, chosen: seq<nat>)

  /**
   * One pass of the loop on state `p` with random value `r`: the drawn entry
   * is spliced out of the available indices and appended to the chosen ones.
   */
  function Step(p: Pass, r: UnitReal): (q: Pass)
    requires |p.available| > 0
    ensures |q.available| == |p.available| - 1 && |q.chosen| == |p.chosen| + 1
  {
    var k := DrawIndex(r, |p.available|);
    Pass(Splice(p.available, k), p.chosen + [p.available[k]])
  }

  /** A pass moves one index from the available ones to the chosen ones, losing and adding none. */
  lemma StepKeepsTotal(p: Pass, r: UnitReal)
    requires |p.available| > 0
    ensures multiset(Step(p, r).available) + multiset(Step(p, r).chosen) == multiset(p.available) + multiset(p.chosen)
  {
    var k := DrawIndex(r, |p.available|);
    SpliceRemovesOne(p.available, k);
    assert multiset(p.chosen + [p.available[k]]) == multiset(p.chosen) + multiset{p.available[k]};
  }

  predicate Disjoint(p: Pass)
  {
    forall x :: x in p.chosen ==> x !in p.available
  }

  /**
   * A pass keeps both lists free of repeats and apart from each other, and
   * introduces no index that was not already in one of them.
   */
  lemma StepKeepsDistinct(p: Pass, r: UnitReal)
    requires |p.available| > 0 && Distinct(p.available) && Distinct(p.chosen) && Disjoint(p)
    ensures var q := Step(p, r);
            Distinct(q.available) && Distinct(q.chosen) && Disjoint(q)
            && (forall x :: x in q.available ==> x in p.available)
            && (forall x :: x in q.chosen ==> x in p.available || x in p.chosen)
  {
    var k := DrawIndex(r, |p.available|);
    SpliceKeepsDistinct(p.available, k);
    var x := p.available[k];
    assert x in p.available;
    assert x !in p.chosen;
    var c := p.chosen + [x];
    forall a, b | 0 <= a < b < |c| ensures c[a] != c[b] {
      assert c[a] == p.chosen[a];
      if b < |c| - 1 {
        assert c[b] == p.chosen[b];
      } else {
        assert c[b] == x;
      }
    }
  }

  /**
   * The state after `passes` passes of the loop started from the list `start`.
   * Pass `i` draws from the `i`-th result of the random source.
   */
  function Run(start: seq<nat>, rng: nat -> UnitReal, passes: nat): (p: Pass)
    requires passes <= |start|
    ensures |p.available| == |start| - passes && |p.chosen| == passes
    decreases passes
  {
    if passes == 0 then Pass(start, [])
    else Step(Run(start, rng, passes - 1), rng(passes - 1))
  }

  /** The indices still available and the indices chosen are, together, a permutation of the starting list. */
  lemma {:induction false} RunPartition(start: seq<nat>, rng: nat -> UnitReal, passes: nat)
    requires passes <= |start|
    ensures multiset(Run(start, rng, passes).available) + multiset(Run(start, rng, passes).chosen) == multiset(start)
    decreases passes
  {
    if passes > 0 {
      RunPartition(start, rng, passes - 1);
      StepKeepsTotal(Run(start, rng, passes - 1), rng(passes - 1));
    }
  }

  /** Started from a list without repeats, no index is chosen twice, and none stays available once chosen. */
  lemma {:induction false} RunDistinct(start: seq<nat>, rng: nat -> UnitReal, passes: nat)
    requires passes <= |start| && Distinct(start)
    ensures var p := Run(start, rng, passes);
            Distinct(p.available) && Distinct(p.chosen) && Disjoint(p)
            && (forall x :: x in p.chosen ==> x in start)
            && (forall x :: x in p.available ==> x in start)
    decreases passes
  {
    if passes > 0 {
      RunDistinct(start, rng, passes - 1);
      StepKeepsDistinct(Run(start, rng, passes - 1), rng(passes - 1));
    }
  }

  /** The original indices one call of the handler selects from a dataset of `n` records. */
  function Chosen(n: nat, count: real, rng: nat -> UnitReal): (chosen: seq<nat>)
    ensures |chosen| == Quota(count, n)
    ensures Distinct(chosen)
    ensures forall j | 0 <= j < |chosen| :: chosen[j] < n
  {
    RunDistinct(Indices(n), rng, Quota(count, n));
    var c := Run(Indices(n), rng, Quota(count, n)).chosen;
    assert forall j | 0 <= j < |c| :: c[j] in Indices(n);
    c
  }

  predicate InRange<T>(all: seq<T>, idx: seq<nat>)
  {
    forall j | 0 <= j < |idx| :: idx[j] < |all|
  }

  /** The records at the indices `idx`, in the order of `idx`. */
  function Gather<T>(all: seq<T>, idx: seq<nat>): (r: seq<T>)
    requires InRange(all, idx)
    ensures |r| == |idx|
  {
    seq(|idx|, j requires 0 <= j < |idx| => all[idx[j]])
  }

  /** The selected records in selection order: `selectedQuestions`. */
  function Selection<T>(all: seq<T>, count: real, rng: nat -> UnitReal): (selected: seq<T>)
    ensures |selected| == Quota(count, |all|)
  {
    Gather(all, Chosen(|all|, count, rng))
  }

  /** Record `j` of the selection is the record at the `j`-th chosen index, and no index is chosen twice. */
  lemma SelectionFromDistinctIndices<T>(all: seq<T>, count: real, rng: nat -> UnitReal)
    ensures var chosen := Chosen(|all|, count, rng);
            Distinct(chosen) && |chosen| == |Selection(all, count, rng)|
            && forall j | 0 <= j < |chosen| :: chosen[j] < |all| && Selection(all, count, rng)[j] == all[chosen[j]]
  {}

  lemma GatherIndices<T>(all: seq<T>)
    ensures InRange(all, Indices(|all|)) && Gather(all, Indices(|all|)) == all
  {}

  /** Splicing entry `k` out of the indices removes exactly the record at `s[k]` from the gathered records. */
  lemma GatherSplice<T>(all: seq<T>, s: seq<nat>, k: nat)
    requires InRange(all, s) && k < |s|
    ensures InRange(all, Splice(s, k))
    ensures multiset(Gather(all, Splice(s, k))) + multiset{all[s[k]]} == multiset(Gather(all, s))
  {
    var r := Splice(s, k);
    forall j | 0 <= j < |r| ensures r[j] == if j < k then s[j] else s[j + 1] {
      SpliceAt(s, k, j);
    }
    var g := Gather(all, s);
    assert Gather(all, r) == g[..k] + g[k+1..];
    assert g == g[..k] + [g[k]] + g[k+1..];
  }

  lemma GatherSnoc<T>(all: seq<T>, c: seq<nat>, x: nat)
    requires InRange(all, c) && x < |all|
    ensures InRange(all, c + [x]) && Gather(all, c + [x]) == Gather(all, c) + [all[x]]
  {}

  /** A pass moves one record from the gathered available records to the gathered chosen ones. */
  lemma StepKeepsRecords<T>(all: seq<T>, p: Pass, r: UnitReal)
    requires |p.available| > 0 && InRange(all, p.available) && InRange(all, p.chosen)
    ensures var q := Step(p, r);
            InRange(all, q.available) && InRange(all, q.chosen)
            && multiset(Gather(all, q.available)) + multiset(Gather(all, q.chosen))
               == multiset(Gather(all, p.available)) + multiset(Gather(all, p.chosen))
  {
    var k := DrawIndex(r, |p.available|);
    GatherSplice(all, p.available, k);
    GatherSnoc(all, p.chosen, p.available[k]);
  }

  /**
   * Started from all indices, the records at the indices still available and
   * the records chosen are, together, a permutation of the dataset.
   */
  lemma {:induction false} RunKeepsRecords<T>(all: seq<T>, rng: nat -> UnitReal, passes: nat)
    requires passes <= |all|
    ensures var p := Run(Indices(|all|), rng, passes);
            InRange(all, p.available) && InRange(all, p.chosen)
            && multiset(Gather(all, p.available)) + multiset(Gather(all, p.chosen)) == multiset(all)
    decreases passes
  {
    GatherIndices(all);
    if passes > 0 {
      RunKeepsRecords(all, rng, passes - 1);
      StepKeepsRecords(all, Run(Indices(|all|), rng, passes - 1), rng(passes - 1));
    }
  }

  /** No record is selected more often than it occurs in the dataset. */
  lemma SelectionWithinDataset<T>(all: seq<T>, count: real, rng: nat -> UnitReal)
    ensures multiset(Selection(all, count, rng)) <= multiset(all)
  {
    RunKeepsRecords(all, rng, Quota(count, |all|));
  }

  /** Asking for at least as many records as there are returns every record once, in some order. */
  lemma SelectionOfAllIsPermutation<T>(all: seq<T>, count: real, rng: nat -> UnitReal)
    requires count >= |all| as real
    ensures multiset(Selection(all, count, rng)) == multiset(all)
  {
    RunKeepsRecords(all, rng, |all|);
    assert Run(Indices(|all|), rng, |all|).available == [];
  }

  /** The chosen indices and the indices still available at the end are a permutation of [0, n). */
  lemma ChosenPartitionsIndices(n: nat, count: real, rng: nat -> UnitReal)
    ensures var left := Run(Indices(n), rng, Quota(count, n)).available;
            |left| == n - Quota(count, n)
            && multiset(Chosen(n, count, rng)) + multiset(left) == multiset(Indices(n))
  {
    RunPartition(Indices(n), rng, Quota(count, n));
  }

  /**
   * What the loop keeps true after `i` passes: the lists are the state `Run`
   * describes, starting from all indices, and `selected` holds the record at
   * each chosen index, in order.
   */
  ghost predicate LoopState<T>(all: seq<T>, rng: nat -> UnitReal, i: nat,
                               available: seq<nat>, chosen: seq<nat>, selected: seq<T>)
  {
    i <= |all|
    && Run(Indices(|all|), rng, i) == Pass(available, chosen)
    && InRange(all, available) && InRange(all, chosen)
    && selected == Gather(all, chosen)
  }

  /** One pass of the loop keeps `LoopState`. */
  lemma PassKeepsLoopState<T>(all: seq<T>, rng: nat -> UnitReal, i: nat,
                              available: seq<nat>, chosen: seq<nat>, selected: seq<T>)
    requires LoopState(all, rng, i, available, chosen, selected) && i < |all|
    ensures var k := DrawIndex(rng(i), |available|);
            k < |available| && available[k] < |all|
            && LoopState(all, rng, i + 1, Splice(available, k),
                         chosen + [available[k]], selected + [all[available[k]]])
  {}

  /**
   * The sampling loop. `availableIndices` shrinks by one entry per pass and
   * `selectedQuestions` grows by the record at the removed index; `all` is
   * only read.
   */
  method Sample<T>(all: seq<T>, count: real, rng: nat -> UnitReal) returns (selected: seq<T>)
    ensures selected == Selection(all, count, rng)
  {
    var n := |all|;
    var numToGenerate := Limit(count, n);
    ghost var q := Quota(count, n);
    selected := [];
    ghost var chosen: seq<nat> := [];
    var available: seq<nat> := Indices(n);
    GatherIndices(all);
    var i := 0;
    while (i as real) < numToGenerate
      invariant 0 <= i <= q
      invariant LoopState(all, rng, i, available, chosen, selected)
    {
      PassKeepsLoopState(all, rng, i, available, chosen, selected);
      var randomIndex := DrawIndex(rng(i), |available|);
      var originalIndex := available[randomIndex];
      available := Splice(available, randomIndex);
      selected := selected + [all[originalIndex]];
      chosen := chosen + [originalIndex];
      i := i + 1;
    }
  }
}
