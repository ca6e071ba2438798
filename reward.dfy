/**
 * The current reward pool: stake per (pool, participant) and a total stake per
 * pool. The migration only writes stakes into it (through the pool manager),
 * so only the stake half of the pool is modelled here.
 */
module Reward {
  import opened Wrappers
  import opened Primitives
  import opened FixedPoint

  /**
   * Reward still owed to a stake: stake * (rewardPerToken - tally), truncated
   * to an integer balance. Each step is checked; a failing step is an error.
   * Stake, reward-per-token and tally are raw fixed-point values, so for
   * non-negative operands the reward is their product divided by UNIT twice.
   */
  function Owed(stake: int, rewardPerToken: int, tally: int): (r: Result<nat, ArithmeticError>)
    ensures r.Ok? ==> InRange(rewardPerToken - tally)
    ensures stake == 0 && InRange(rewardPerToken - tally) ==> r == Ok(0)
    ensures rewardPerToken == tally ==> r == Ok(0)
    ensures r.Ok? && stake >= 0 && rewardPerToken >= tally ==>
      r.value * UNIT * UNIT <= stake * (rewardPerToken - tally) < (r.value + 1) * UNIT * UNIT
    ensures stake >= 0 && rewardPerToken >= tally ==>
      (r.Ok? <==> InRange(rewardPerToken - tally) && InRange(stake * (rewardPerToken - tally) / UNIT))
  {
    match CheckedSub(rewardPerToken, tally)
    case None => Err(Underflow)
    case Some(delta) =>
      match CheckedMul(stake, delta)
      case None => Err(Overflow)
      case Some(product) =>
        TruncatedTwice(stake, delta);
        var reward := TruncateToInner(product);
        if reward < 0 then Err(TryIntoIntError) else Ok(reward)
  }

  /** Truncating a non-negative product by UNIT twice is dividing it by UNIT * UNIT. */
  lemma TruncatedTwice(stake: int, delta: int)
    ensures stake >= 0 && delta >= 0 ==>
      var p := DivTrunc(stake * delta, UNIT);
      var q := TruncateToInner(p);
      p == stake * delta / UNIT && 0 <= q && q * UNIT * UNIT <= stake * delta < (q + 1) * UNIT * UNIT
  {
    if stake >= 0 && delta >= 0 {
      var x := stake * delta;
      assert x >= 0;
      var p := x / UNIT;
      assert DivTrunc(x, UNIT) == p;
      assert TruncateToInner(p) == p / UNIT;
    }
  }

  datatype Pool<PoolId(==), StakeId(==)> = Pool(totalStake: map<PoolId, int>, stake: map<(PoolId, StakeId), int>)

  function Empty<P, S>(): Pool<P, S> {
    Pool(map[], map[])
  }

  function TotalStake<P(==,!new), S(==,!new)>(pool: Pool<P, S>, p: P): int {
    GetOrZero(pool.totalStake, p)
  }

  function StakeOf<P(==,!new), S(==,!new)>(pool: Pool<P, S>, p: P, s: S): int {
    GetOrZero(pool.stake, (p, s))
  }

  /**
   * `set_stake`: the participant's stake becomes `amount` and the pool's total
   * moves by the difference; every other stake and total is untouched.
   */
  function SetStake<P(==,!new), S(==,!new)>(pool: Pool<P, S>, p: P, s: S, amount: int): (r: Pool<P, S>)
    ensures StakeOf(r, p, s) == amount
    ensures forall q, t :: (q, t) != (p, s) ==> StakeOf(r, q, t) == StakeOf(pool, q, t)
    ensures TotalStake(r, p) == TotalStake(pool, p) - StakeOf(pool, p, s) + amount
    ensures forall q :: q != p ==> TotalStake(r, q) == TotalStake(pool, q)
  {
    Pool(pool.totalStake[p := TotalStake(pool, p) - StakeOf(pool, p, s) + amount],
         pool.stake[(p, s) := amount])
  }

  /** What entry `k` contributes to the sum of pool `p`. */
  function Share<P(==,!new), S(==,!new)>(stake: map<(P, S), int>, p: P, k: (P, S)): int
    requires k in stake
  {
    if k.0 == p then stake[k] else 0
  }

  /** The sum of the individual stakes of pool `p`. */
  ghost function PoolSum<P(!new), S(!new)>(stake: map<(P, S), int>, p: P): int
    decreases |stake|
  {
    if stake == map[] then 0
    else
      var k :| k in stake;
      Share(stake, p, k) + PoolSum(stake - {k}, p)
  }

  /** Every pool's total stake is the sum of its individual stakes. */
  ghost predicate Consistent<P(!new), S(!new)>(pool: Pool<P, S>) {
    forall p :: TotalStake(pool, p) == PoolSum(pool.stake, p)
  }

  /** The sum does not depend on which entry is taken out first. */
  lemma {:induction false} PoolSumRemove<P(!new), S(!new)>(stake: map<(P, S), int>, p: P, k: (P, S))
    requires k in stake
    ensures PoolSum(stake, p) == Share(stake, p, k) + PoolSum(stake - {k}, p)
    decreases |stake|
  {
    var j :| j in stake && PoolSum(stake, p) == Share(stake, p, j) + PoolSum(stake - {j}, p);
    if j != k {
      PoolSumRemove(stake - {j}, p, k);
      PoolSumRemove(stake - {k}, p, j);
      assert Share(stake - {j}, p, k) == Share(stake, p, k);
      assert Share(stake - {k}, p, j) == Share(stake, p, j);
      assert stake - {j} - {k} == stake - {k} - {j};
    }
  }

  /** Writing one entry moves the sum of its pool by the difference. */
  lemma PoolSumUpdate<P(!new), S(!new)>(stake: map<(P, S), int>, p: P, k: (P, S), v: int)
    ensures PoolSum(stake[k := v], p)
            == PoolSum(stake, p) - (if k in stake then Share(stake, p, k) else 0) + (if k.0 == p then v else 0)
  {
    PoolSumRemove(stake[k := v], p, k);
    if k in stake {
      PoolSumRemove(stake, p, k);
      assert stake[k := v] - {k} == stake - {k};
    } else {
      assert stake[k := v] - {k} == stake;
    }
  }

  lemma EmptyConsistent<P(!new), S(!new)>()
    ensures Consistent(Empty<P, S>())
  {
  }

  /** `set_stake` keeps every total equal to the sum of its stakes. */
  lemma SetStakeConsistent<P(!new), S(!new)>(pool: Pool<P, S>, p: P, s: S, amount: int)
    requires Consistent(pool)
    ensures Consistent(SetStake(pool, p, s, amount))
  {
    var r := SetStake(pool, p, s, amount);
    forall q
      ensures TotalStake(r, q) == PoolSum(r.stake, q)
    {
      PoolSumUpdate(pool.stake, q, (p, s), amount);
    }
  }

  /** Taking key `k` out of a sum, whether or not it is present (a missing entry counts as 0). */
  lemma PoolSumWithout<P(!new), S(!new)>(stake: map<(P, S), int>, p: P, k: (P, S))
    ensures PoolSum(stake, p) == (if k.0 == p then GetOrZero(stake, k) else 0) + PoolSum(stake - {k}, p)
  {
    if k in stake {
      PoolSumRemove(stake, p, k);
    } else {
      assert stake - {k} == stake;
    }
  }

  /** A pool's sum cannot fall when none of its entries falls (a missing entry counts as 0). */
  lemma {:induction false} PoolSumMonotone<P(!new), S(!new)>(a: map<(P, S), int>, b: map<(P, S), int>, p: P)
    requires forall k: (P, S) :: k.0 == p ==> GetOrZero(a, k) <= GetOrZero(b, k)
    ensures PoolSum(a, p) <= PoolSum(b, p)
    decreases |a| + |b|
  {
    if a != map[] || b != map[] {
      var k :| k in a || k in b;
      PoolSumWithout(a, p, k);
      PoolSumWithout(b, p, k);
      assert |a - {k}| + |b - {k}| < |a| + |b|;
      forall j: (P, S) | j.0 == p
        ensures GetOrZero(a - {k}, j) <= GetOrZero(b - {k}, j)
      {
        assert GetOrZero(a, j) <= GetOrZero(b, j);
      }
      PoolSumMonotone(a - {k}, b - {k}, p);
    }
  }

  /** Raising one entry by `delta` and changing no other raises the sum of that entry's pool by `delta`. */
  lemma PoolSumBump<P(!new), S(!new)>(a: map<(P, S), int>, b: map<(P, S), int>, p: P, key: (P, S), delta: int)
    requires forall k: (P, S) :: k != key ==> GetOrZero(a, k) == GetOrZero(b, k)
    requires GetOrZero(b, key) == GetOrZero(a, key) + delta
    ensures PoolSum(b, p) == PoolSum(a, p) + (if key.0 == p then delta else 0)
  {
    PoolSumWithout(a, p, key);
    PoolSumWithout(b, p, key);
    forall j: (P, S) | j.0 == p
      ensures GetOrZero(a - {key}, j) == GetOrZero(b - {key}, j)
    {
      if j != key {
        assert GetOrZero(a, j) == GetOrZero(b, j);
      }
    }
    PoolSumMonotone(a - {key}, b - {key}, p);
    PoolSumMonotone(b - {key}, a - {key}, p);
  }
}
