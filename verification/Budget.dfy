/**
 The greedy budget of app/application/services/context_service.py, for any items and any price that an
 item has in a given place: in the source, the tokens of a result's block with its label.
 */
module Budget {
  import opened Numbers

  /** Tokens of the first n blocks, each counted on its own as the code does. */
  function Cost<T>(price: (nat, T) -> nat, results: seq<T>, n: nat): nat
    requires n <= |results|
  {
    if n == 0 then 0 else Cost(price, results, n - 1) + price(n, results[n - 1])
  }

  /** Exactly the non-empty prefixes up to length k are within the budget. */
  ghost predicate LongestFit<T>(price: (nat, T) -> nat, relevant: seq<T>, budget: int, k: nat) {
    && k <= |relevant|
    && forall j :: 1 <= j <= |relevant| ==> (Cost(price, relevant, j) <= budget <==> j <= k)
  }

  lemma {:induction false} CostGrows<T>(price: (nat, T) -> nat, relevant: seq<T>, i: nat, j: nat)
    requires i <= j <= |relevant|
    ensures Cost(price, relevant, i) <= Cost(price, relevant, j)
  {
    if i < j {
      CostGrows(price, relevant, i, j - 1);
    }
  }

  lemma {:induction false} FitFromEdge<T>(price: (nat, T) -> nat, relevant: seq<T>, budget: int, k: nat)
    requires k <= |relevant|
    requires k > 0 ==> Cost(price, relevant, k) <= budget
    requires k < |relevant| ==> Cost(price, relevant, k + 1) > budget
    ensures LongestFit(price, relevant, budget, k)
  {
    forall j | 1 <= j <= |relevant| ensures Cost(price, relevant, j) <= budget <==> j <= k {
      if j <= k {
        CostGrows(price, relevant, j, k);
      } else {
        CostGrows(price, relevant, k + 1, j);
      }
    }
  }

  /** The longest fit is unique, and a larger budget only makes it longer. */
  lemma {:induction false} LargerBudgetExtends<T>(
    price: (nat, T) -> nat, relevant: seq<T>, b: int, b': int, k: nat, k': nat)
    requires b <= b' && LongestFit(price, relevant, b, k) && LongestFit(price, relevant, b', k')
    ensures k <= k' && relevant[..k] == relevant[..k'][..k]
  {
    if k > 0 {
      assert Cost(price, relevant, k) <= b;
    }
  }

  // ---------------------------------------------------------------- as many as possible?

  /** The results a selection picks, in order; they would be labelled 1, 2, 3, ... */
  function Chosen<T>(results: seq<T>, pick: seq<bool>): (chosen: seq<T>)
    requires |results| == |pick|
    ensures |chosen| <= |results|
  {
    if results == [] then []
    else
      var n := |results| - 1;
      var before := Chosen(results[..n], pick[..n]);
      if pick[n] then before + [results[n]] else before
  }

  /** What a selection would cost, block by block. */
  function Price<T>(price: (nat, T) -> nat, chosen: seq<T>): nat { Cost(price, chosen, |chosen|) }

  /** No selection within the budget is larger than k. */
  ghost predicate LargestIs<T>(price: (nat, T) -> nat, relevant: seq<T>, budget: int, k: nat) {
    forall pick: seq<bool> :: |pick| == |relevant| && Price(price, Chosen(relevant, pick)) <= budget ==>
      |Chosen(relevant, pick)| <= k
  }

  /** The least that m results, taken in order from the list, can cost. */
  function Cheapest<T>(price: (nat, T) -> nat, results: seq<T>, m: nat): nat
    requires m <= |results|
    decreases |results|
  {
    if m == 0 then 0
    else
      var n := |results| - 1;
      var taken := Cheapest(price, results[..n], m - 1) + price(m, results[n]);
      if m == |results| then taken else Min(taken, Cheapest(price, results[..n], m))
  }

  lemma {:induction false} CostOfPrefix<T>(price: (nat, T) -> nat, results: seq<T>, r: T, n: nat)
    requires n <= |results|
    ensures Cost(price, results + [r], n) == Cost(price, results, n)
  {
    if n > 0 {
      CostOfPrefix(price, results, r, n - 1);
    }
  }

  lemma {:induction false} PriceAppend<T>(price: (nat, T) -> nat, chosen: seq<T>, r: T)
    ensures Price(price, chosen + [r]) == Price(price, chosen) + price(|chosen| + 1, r)
  {
    CostOfPrefix(price, chosen, r, |chosen|);
  }

  /** No selection is cheaper than that. */
  lemma {:induction false} CheapestIsLeast<T>(price: (nat, T) -> nat, results: seq<T>, pick: seq<bool>)
    requires |results| == |pick|
    ensures Cheapest(price, results, |Chosen(results, pick)|) <= Price(price, Chosen(results, pick))
    decreases |results|
  {
    if results != [] {
      var n := |results| - 1;
      CheapestIsLeast(price, results[..n], pick[..n]);
      PriceAppend(price, Chosen(results[..n], pick[..n]), results[n]);
    }
  }

  /** And some selection attains it. */
  lemma {:induction false} CheapestIsAttained<T>(price: (nat, T) -> nat, results: seq<T>, m: nat)
    returns (pick: seq<bool>)
    requires m <= |results|
    ensures |pick| == |results| && |Chosen(results, pick)| == m
    ensures Price(price, Chosen(results, pick)) == Cheapest(price, results, m)
    decreases |results|
  {
    if results == [] {
      return [];
    }
    var n := |results| - 1;
    var front := results[..n];
    if m > 0 && Cheapest(price, results, m) == Cheapest(price, front, m - 1) + price(m, results[n]) {
      var before := CheapestIsAttained(price, front, m - 1);
      pick := before + [true];
      assert pick[..n] == before;
      PriceAppend(price, Chosen(front, before), results[n]);
    } else {
      var before := CheapestIsAttained(price, front, m);
      pick := before + [false];
      assert pick[..n] == before;
    }
  }

  lemma {:induction false} CheapestGrows<T>(price: (nat, T) -> nat, results: seq<T>, m: nat)
    requires m < |results|
    ensures Cheapest(price, results, m) <= Cheapest(price, results, m + 1)
    decreases |results|
  {
    var n := |results| - 1;
    if m > 0 {
      CheapestGrows(price, results[..n], m - 1);
    }
    if m < n {
      CheapestGrows(price, results[..n], m);
    }
  }

  lemma {:induction false} CheapestGrowsTo<T>(price: (nat, T) -> nat, results: seq<T>, m: nat, m': nat)
    requires m <= m' <= |results|
    ensures Cheapest(price, results, m) <= Cheapest(price, results, m')
  {
    if m < m' {
      CheapestGrowsTo(price, results, m, m' - 1);
      CheapestGrows(price, results, m' - 1);
    }
  }

  /**
   "As many high-quality chunks as possible": the prefix the loop takes is as large as any selection in
   list order if and only if it is the whole list or no k + 1 of the results fit.
   */
  lemma {:induction false} AsManyAsPossibleExactly<T>(price: (nat, T) -> nat, relevant: seq<T>, budget: int, k: nat)
    requires LongestFit(price, relevant, budget, k)
    ensures LargestIs(price, relevant, budget, k) <==>
            k == |relevant| || Cheapest(price, relevant, k + 1) > budget
  {
    if k < |relevant| && Cheapest(price, relevant, k + 1) <= budget {
      var pick := CheapestIsAttained(price, relevant, k + 1);
      assert |Chosen(relevant, pick)| > k;
    } else {
      forall pick: seq<bool> | |pick| == |relevant| && Price(price, Chosen(relevant, pick)) <= budget
        ensures |Chosen(relevant, pick)| <= k
      {
        CheapestIsLeast(price, relevant, pick);
        if k + 1 <= |Chosen(relevant, pick)| {
          CheapestGrowsTo(price, relevant, k + 1, |Chosen(relevant, pick)|);
        }
      }
    }
  }

  /** Blocks never get cheaper along the list, whatever label they carry. */
  ghost predicate CostsRise<T>(price: (nat, T) -> nat, results: seq<T>) {
    forall i, j, n: nat :: 0 <= i < j < |results| ==> price(n, results[i]) <= price(n, results[j])
  }

  lemma {:induction false} RisingPrefixIsCheapest<T>(price: (nat, T) -> nat, results: seq<T>, m: nat)
    requires CostsRise(price, results) && m <= |results|
    ensures Cheapest(price, results, m) == Cost(price, results, m)
    decreases |results|
  {
    if m > 0 {
      var n := |results| - 1;
      var front := results[..n];
      RisingPrefixIsCheapest(price, front, m - 1);
      PrefixCost(price, results, m - 1);
      if m < |results| {
        RisingPrefixIsCheapest(price, front, m);
        PrefixCost(price, results, m);
        assert price(m, results[m - 1]) <= price(m, results[n]);
      }
    }
  }

  lemma {:induction false} PrefixCost<T>(price: (nat, T) -> nat, results: seq<T>, m: nat)
    requires m < |results|
    ensures Cost(price, results[..|results| - 1], m) == Cost(price, results, m)
  {
    if m > 0 {
      PrefixCost(price, results, m - 1);
    }
  }

  /** So it is when costs rise along the list. */
  lemma {:induction false} RisingCostsGiveTheMost<T>(price: (nat, T) -> nat, relevant: seq<T>, budget: int, k: nat)
    requires LongestFit(price, relevant, budget, k) && CostsRise(price, relevant)
    ensures LargestIs(price, relevant, budget, k)
  {
    AsManyAsPossibleExactly(price, relevant, budget, k);
    if k < |relevant| {
      RisingPrefixIsCheapest(price, relevant, k + 1);
    }
  }

  /** A witness that it may not be: a large block in front of a small one keeps both out. */
  lemma {:induction false} LargeBlockHidesSmallOne<T>(price: (nat, T) -> nat, big: T, small: T, budget: int)
    requires price(1, small) <= budget < price(1, big)
    ensures LongestFit(price, [big, small], budget, 0) && !LargestIs(price, [big, small], budget, 0)
  {
    var results := [big, small];
    assert Cost(price, results, 0) == 0;
    assert Cost(price, results, 1) == price(1, big);
    FitFromEdge(price, results, budget, 0);
    assert results[..1] == [big];
    assert Cheapest(price, results, 1) <= price(1, small);
    AsManyAsPossibleExactly(price, results, budget, 0);
  }
}
