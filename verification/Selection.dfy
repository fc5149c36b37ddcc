/**
 The blocks of a page: the longest prefix of the candidates, ascending, whose saturating
 weight fits the budget, and at least one.
 */
module Selection {
  import opened Words

  function Sum(weights: seq<Word>): nat {
    if weights == [] then 0 else Sum(weights[..|weights| - 1]) + weights[|weights| - 1]
  }

  /** The first `k` of the candidates weigh no more than the budget, or are no more than the one a page always has. */
  predicate Fits(weights: seq<Word>, budget: Word, k: nat)
    requires k <= |weights|
  {
    k <= 1 || Saturated(Sum(weights[..k])) <= budget
  }

  /** The most of the first `k` candidates that fit. */
  function Longest(weights: seq<Word>, budget: Word, k: nat): (longest: nat)
    requires k <= |weights|
    ensures longest <= k && Fits(weights, budget, longest)
    ensures forall more :: longest < more <= k ==> !Fits(weights, budget, more)
  {
    if Fits(weights, budget, k) then k else Longest(weights, budget, k - 1)
  }

  /** How many candidates a page takes. */
  function Taken(weights: seq<Word>, budget: Word): nat {
    Longest(weights, budget, |weights|)
  }

  lemma {:induction false} SumGrows(weights: seq<Word>, i: nat, j: nat)
    requires i <= j <= |weights|
    ensures Sum(weights[..i]) <= Sum(weights[..j])
  {
    if i < j {
      assert weights[..j][..j - 1] == weights[..j - 1];
      SumGrows(weights, i, j - 1);
    }
  }

  lemma SumStep(weights: seq<Word>, k: nat)
    requires k < |weights|
    ensures Sum(weights[..k + 1]) == Sum(weights[..k]) + weights[k]
  {
    assert weights[..k + 1][..k] == weights[..k];
  }

  /** A prefix that exceeds the budget settles the page, whatever follows it. */
  lemma {:induction false} ExceedingSettles(weights: seq<Word>, more: seq<Word>, budget: Word)
    requires weights <= more && Saturated(Sum(weights)) > budget
    ensures Taken(more, budget) == Taken(weights, budget)
  {
    hide Sum;
    assert weights == more[..|weights|];
    forall k | 0 <= k <= |weights| ensures Fits(more, budget, k) <==> Fits(weights, budget, k) {
      assert more[..k] == weights[..k];
    }
    forall k | |weights| <= k <= |more| ensures Fits(more, budget, k) ==> k <= 1 {
      SumGrows(more, |weights|, k);
    }
    TakenIs(weights, budget, Taken(weights, budget));
    if weights == [] {
      assert Sum([]) == 0 by { NothingSums(); }
      assert false;
    }
    TakenIs(more, budget, Taken(weights, budget));
  }

  lemma NothingSums()
    ensures Sum([]) == 0
  {
  }

  /** The longest is the one that fits and is followed by none. */
  lemma TakenIs(weights: seq<Word>, budget: Word, k: nat)
    requires k <= |weights| && Fits(weights, budget, k)
    requires forall more :: k < more <= |weights| ==> !Fits(weights, budget, more)
    ensures Taken(weights, budget) == k
  {
  }

  /** Where all of them fit, all are taken. */
  lemma FittingTaken(weights: seq<Word>, budget: Word)
    requires Saturated(Sum(weights)) <= budget
    ensures Taken(weights, budget) == |weights|
  {
    assert weights[..|weights|] == weights;
  }

  /** A weighted prefix selected across disjoint, complete ranges of blocks. */
  class BlockSelection {
    const budget: Word
    var cumulative: Word
    var blocks: seq<Word>
    var weights: seq<Word>
    /** Every block offered so far, and what each weighs. */
    ghost var offered: seq<Word>
    ghost var offeredWeights: seq<Word>

    ghost predicate Valid()
      reads this
    {
      && |offered| == |offeredWeights|
      && cumulative == Saturated(Sum(offeredWeights))
      && var taken := Taken(offeredWeights, budget);
         blocks == offered[..taken] && weights == offeredWeights[..taken]
    }

    constructor (budget: Word)
      ensures Valid() && this.budget == budget && offered == [] && offeredWeights == []
    {
      this.budget, cumulative, blocks, weights := budget, 0, [], [];
      offered, offeredWeights := [], [];
    }

    /** Offers one block. */
    method Offer(block: Word, weight: Word) returns (exhausted: bool)
      requires Valid() && cumulative <= budget
      modifies this
      ensures Valid()
      ensures offered == old(offered) + [block] && offeredWeights == old(offeredWeights) + [weight]
      ensures exhausted <==> cumulative > budget
    {
      ghost var (was, now) := (offeredWeights, offeredWeights + [weight]);
      FittingTaken(was, budget);
      assert now[..|was|] == was && now[..|now|] == now;
      SumStep(now, |was|);
      SaturatesLater(Sum(was), weight);
      cumulative := SaturatingAdd(cumulative, weight);
      if blocks == [] || cumulative <= budget {
        blocks := blocks + [block];
        weights := weights + [weight];
      }
      offered, offeredWeights := offered + [block], now;
      TakenIs(now, budget, if |was| == 0 || cumulative <= budget then |now| else |was|);
      return cumulative > budget;
    }

    /** Offers blocks until the budget is exceeded, including by the first block. */
    method Extend(more: seq<Word>, weigh: map<Word, Word>) returns (exhausted: bool)
      requires Valid() && cumulative <= budget
      modifies this
      ensures Valid()
      ensures exhausted <==> cumulative > budget
      ensures 0 <= |offered| - |old(offered)| <= |more|
      ensures !exhausted ==> |offered| - |old(offered)| == |more|
      ensures offered == old(offered) + more[..|offered| - |old(offered)|]
      ensures offeredWeights == old(offeredWeights) + Weighed(more[..|offered| - |old(offered)|], weigh)
    {
      hide Valid;
      for i := 0 to |more|
        invariant Valid() && cumulative <= budget
        invariant offered == old(offered) + more[..i]
        invariant offeredWeights == old(offeredWeights) + Weighed(more[..i], weigh)
      {
        var weight := if more[i] in weigh then weigh[more[i]] else 0;
        assert more[..i + 1] == more[..i] + [more[i]];
        exhausted := Offer(more[i], weight);
        if exhausted {
          return;
        }
      }
      assert more[..|more|] == more;
      return false;
    }
  }

  /** What each block weighs; nothing where it has no weight. */
  function Weighed(blocks: seq<Word>, weigh: map<Word, Word>): seq<Word> {
    seq(|blocks|, i requires 0 <= i < |blocks| => if blocks[i] in weigh then weigh[blocks[i]] else 0)
  }
}
