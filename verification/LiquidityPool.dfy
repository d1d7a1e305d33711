/**
 The accounting of liquidityController.js over one loaded pool and non-overlapping
 requests, with numbers as reals. `NaN` is kept where a division by an empty pool
 can produce it; rounding, prices and the chain call's content are left out.
 */
module LiquidityPool {

  datatype Num = Finite(v: real) | NaN

  datatype PoolState = PoolState(reserve0: Num, reserve1: Num, totalLiquidity: real, positions: map<string, real>) {
    function PositionOf(user: string): real {
      if user in positions then positions[user] else 0.0
    }
  }

  // The tolerance of the balance test: 1e-8.
  const EPSILON: real := 0.00000001

  function Max0(x: real): real {
    if x < 0.0 then 0.0 else x
  }

  function Plus(x: Num, y: real): Num {
    if x.NaN? then NaN else Finite(x.v + y)
  }

  // reserve * (lp / total): what a withdrawal of lp pays out of a nonempty pool.
  function Payout(reserve: real, lp: real, total: real): real
    requires total != 0.0
  {
    reserve * (lp / total)
  }

  // Math.max(0, reserve - reserve * (lp / total)). Over an empty pool the ratio is
  // infinite: a positive reserve is wiped out and a zero one becomes NaN.
  function ReserveAfter(reserve: Num, lp: real, total: real): Num {
    if reserve.NaN? then NaN
    else if total != 0.0 then Finite(Max0(reserve.v - Payout(reserve.v, lp, total)))
    else if reserve.v == 0.0 then NaN
    else Finite(0.0)
  }

  function Added(s: PoolState, user: string, a0: real, a1: real, lp: real): PoolState {
    PoolState(Plus(s.reserve0, a0), Plus(s.reserve1, a1), s.totalLiquidity + lp, s.positions[user := s.PositionOf(user) + lp])
  }

  predicate MayRemove(s: PoolState, user: string, lp: real) {
    lp > 0.0 && s.PositionOf(user) > 0.0 && lp <= s.PositionOf(user) + EPSILON
  }

  function Removed(s: PoolState, user: string, lp: real): PoolState {
    PoolState(ReserveAfter(s.reserve0, lp, s.totalLiquidity), ReserveAfter(s.reserve1, lp, s.totalLiquidity),
              Max0(s.totalLiquidity - lp), s.positions[user := Max0(s.PositionOf(user) - lp)])
  }

  class Pool {
    var state: PoolState

    // addLiquidityToPool; lpTokens is Math.sqrt(a0 * a1), and the chain may refuse.
    method AddLiquidity(user: string, a0: real, a1: real, lpTokens: real, chainOk: bool) returns (ok: bool)
      requires a0 > 0.0 && a1 > 0.0 ==> lpTokens >= 0.0 && lpTokens * lpTokens == a0 * a1
      modifies this
      ensures ok <==> a0 > 0.0 && a1 > 0.0 && chainOk
      ensures state == if ok then Added(old(state), user, a0, a1, lpTokens) else old(state)
      ensures ok ==> state.reserve0 == Plus(old(state).reserve0, a0) && state.reserve1 == Plus(old(state).reserve1, a1)
      ensures ok ==> state.totalLiquidity == old(state).totalLiquidity + lpTokens
      ensures ok ==> state.positions == old(state).positions[user := old(state).PositionOf(user) + lpTokens]
    {
      if a0 <= 0.0 || a1 <= 0.0 || !chainOk {
        return false;
      }
      var position := state.PositionOf(user);
      state := state.(reserve0 := Plus(state.reserve0, a0));
      state := state.(reserve1 := Plus(state.reserve1, a1));
      state := state.(totalLiquidity := state.totalLiquidity + lpTokens);
      state := state.(positions := state.positions[user := position + lpTokens]);
      return true;
    }

    // removeLiquidity, with the slippage field's check and the chain call as inputs.
    method RemoveLiquidity(user: string, lp: real, slippage: real, chainOk: bool) returns (ok: bool)
      modifies this
      ensures ok <==> MayRemove(old(state), user, lp) && 0.0 <= slippage <= 5.0 && chainOk
      ensures ok <==> lp > 0.0 && old(state).PositionOf(user) > 0.0 && lp <= old(state).PositionOf(user) + 0.00000001
                      && 0.0 <= slippage <= 5.0 && chainOk
      ensures state == if ok then Removed(old(state), user, lp) else old(state)
    {
      if lp <= 0.0 {
        return false;
      }
      if slippage < 0.0 || slippage > 5.0 {
        return false;
      }
      var userLiquidity := state.PositionOf(user);
      if userLiquidity <= 0.0 {
        return false;
      }
      if userLiquidity + EPSILON < lp {
        return false;
      }
      if !chainOk {
        return false;
      }
      var total := state.totalLiquidity;
      state := state.(reserve0 := ReserveAfter(state.reserve0, lp, total));
      state := state.(reserve1 := ReserveAfter(state.reserve1, lp, total));
      state := state.(totalLiquidity := Max0(total - lp));
      state := state.(positions := state.positions[user := Max0(userLiquidity - lp)]);
      return true;
    }
  }

  // ---------- Total liquidity and the positions ----------

  ghost function Sum(positions: map<string, real>): real {
    if positions == map[] then 0.0
    else var user :| user in positions; positions[user] + Sum(positions - {user})
  }

  lemma {:induction false} SumTakesOut(positions: map<string, real>, user: string)
    requires user in positions
    ensures Sum(positions) == positions[user] + Sum(positions - {user})
    decreases |positions|
  {
    var first :| first in positions && Sum(positions) == positions[first] + Sum(positions - {first});
    if first != user {
      SumTakesOut(positions - {first}, user);
      SumTakesOut(positions - {user}, first);
      assert positions - {first} - {user} == positions - {user} - {first};
    }
  }

  lemma {:induction false} SumAfterUpdate(s: PoolState, user: string, p: real)
    ensures Sum(s.positions[user := p]) == Sum(s.positions) - s.PositionOf(user) + p
  {
    var after := s.positions[user := p];
    SumTakesOut(after, user);
    if user in s.positions {
      SumTakesOut(s.positions, user);
      assert after - {user} == s.positions - {user};
    } else {
      assert after - {user} == s.positions;
    }
  }

  // How much liquidity is there beyond what the users' positions add up to.
  ghost function Slack(s: PoolState): real {
    s.totalLiquidity - Sum(s.positions)
  }

  lemma {:induction false} AddKeepsSlack(s: PoolState, user: string, a0: real, a1: real, lp: real)
    ensures Slack(Added(s, user, a0, a1, lp)) == Slack(s)
  {
    SumAfterUpdate(s, user, s.PositionOf(user) + lp);
  }

  function Least(x: real, y: real): real {
    if x < y then x else y
  }

  // What a removal does to the slack, exactly: the total gives up what it can of lp,
  // the position what it can.
  lemma {:induction false} RemovalMovesSlack(s: PoolState, user: string, lp: real)
    ensures Slack(Removed(s, user, lp)) == Slack(s) - Least(lp, s.totalLiquidity) + Least(lp, s.PositionOf(user))
  {
    SumAfterUpdate(s, user, Max0(s.PositionOf(user) - lp));
  }

  // The removals that take more out of the total than out of the position.
  predicate Overdraws(s: PoolState, user: string, lp: real) {
    lp > s.PositionOf(user) && s.totalLiquidity > s.PositionOf(user)
  }

  // An accepted removal lowers the slack exactly when it asks for more than a position
  // that is not the whole total, and then by at most 1e-8.
  lemma {:induction false} SlackFallsExactly(s: PoolState, user: string, lp: real)
    requires MayRemove(s, user, lp)
    ensures Slack(Removed(s, user, lp)) < Slack(s) <==> Overdraws(s, user, lp)
    ensures Slack(Removed(s, user, lp)) >= Slack(s) - 0.00000001
  {
    RemovalMovesSlack(s, user, lp);
  }

  datatype Op =
    | Add(user: string, a0: real, a1: real, lp: real)
    | Remove(user: string, lp: real)

  // A run of requests; a refused removal changes nothing.
  function Run(s: PoolState, ops: seq<Op>): PoolState {
    if ops == [] then s
    else
      var t := Run(s, ops[..|ops| - 1]);
      match ops[|ops| - 1]
      case Add(user, a0, a1, lp) => Added(t, user, a0, a1, lp)
      case Remove(user, lp) => if MayRemove(t, user, lp) then Removed(t, user, lp) else t
  }

  function Removals(ops: seq<Op>): nat {
    if ops == [] then 0 else Removals(ops[..|ops| - 1]) + (if ops[|ops| - 1].Remove? then 1 else 0)
  }

  // Over any run the slack falls by at most 1e-8 per removal.
  lemma {:induction false} SlackOverRun(s: PoolState, ops: seq<Op>)
    ensures Slack(Run(s, ops)) >= Slack(s) - 0.00000001 * Removals(ops) as real
  {
    if ops != [] {
      var init := ops[..|ops| - 1];
      var t := Run(s, init);
      SlackOverRun(s, init);
      match ops[|ops| - 1]
      case Add(user, a0, a1, lp) => AddKeepsSlack(t, user, a0, a1, lp);
      case Remove(user, lp) =>
        if MayRemove(t, user, lp) {
          SlackFallsExactly(t, user, lp);
        }
    }
  }

  // A request that is accepted and overdraws.
  predicate IsOverdraft(s: PoolState, op: Op) {
    op.Remove? && MayRemove(s, op.user, op.lp) && Overdraws(s, op.user, op.lp)
  }

  ghost predicate SlackFallsAt(s: PoolState, ops: seq<Op>, i: nat)
    requires i < |ops|
  {
    Slack(Run(s, ops[..i + 1])) < Slack(Run(s, ops[..i]))
  }

  ghost predicate OverdraftAt(s: PoolState, ops: seq<Op>, i: nat)
    requires i < |ops|
  {
    IsOverdraft(Run(s, ops[..i]), ops[i])
  }

  lemma {:induction false} FallIsOverdraft(s: PoolState, ops: seq<Op>, i: nat)
    requires i < |ops|
    ensures SlackFallsAt(s, ops, i) <==> OverdraftAt(s, ops, i)
  {
    assert ops[..i + 1][..i] == ops[..i];
    var t := Run(s, ops[..i]);
    match ops[i]
    case Add(user, a0, a1, lp) => AddKeepsSlack(t, user, a0, a1, lp);
    case Remove(user, lp) =>
      if MayRemove(t, user, lp) {
        SlackFallsExactly(t, user, lp);
      }
  }

  // No request of a run lowers the slack exactly when none is an overdraft.
  lemma {:induction false} SlackNeverFallsExactly(s: PoolState, ops: seq<Op>)
    ensures (forall i :: 0 <= i < |ops| ==> !SlackFallsAt(s, ops, i))
            <==> forall i :: 0 <= i < |ops| ==> !OverdraftAt(s, ops, i)
  {
    forall i | 0 <= i < |ops|
      ensures SlackFallsAt(s, ops, i) <==> OverdraftAt(s, ops, i)
    {
      FallIsOverdraft(s, ops, i);
    }
  }

  // The bound is tight: taking the whole tolerance costs exactly 1e-8.
  lemma {:induction false} SlackBoundIsTight(s: PoolState, user: string)
    requires s.PositionOf(user) > 0.0 && s.totalLiquidity >= s.PositionOf(user) + EPSILON
    ensures MayRemove(s, user, s.PositionOf(user) + EPSILON)
    ensures Slack(Removed(s, user, s.PositionOf(user) + EPSILON)) == Slack(s) - 0.00000001
  {
    RemovalMovesSlack(s, user, s.PositionOf(user) + EPSILON);
  }

  // ---------- What a withdrawal pays ----------

  // Every removal from a nonempty pool keeps the reserve per LP token (stated without division).
  lemma {:induction false} RemovalKeepsReservePerToken(r: real, lp: real, total: real)
    requires total > 0.0 && r >= 0.0
    ensures ReserveAfter(Finite(r), lp, total).v * total == r * Max0(total - lp)
  {}

  // Withdrawing x and then y pays the same, and leaves the same reserve, as withdrawing x + y at once.
  lemma {:induction false} SplitPaysTheSame(r: real, x: real, y: real, total: real)
    requires r >= 0.0 && x > 0.0 && y > 0.0 && x + y <= total
    ensures var after := ReserveAfter(Finite(r), x, total).v;
            Payout(r, x, total) + Payout(after, y, total - x) == Payout(r, x + y, total)
            && ReserveAfter(Finite(after), y, total - x) == ReserveAfter(Finite(r), x + y, total)
  {}

  predicate IsReserve(x: Num) {
    x.Finite? && x.v >= 0.0
  }

  // So two removals within position and total leave the whole pool as one removal of the sum does.
  lemma {:induction false} SplitRemovalIsOneRemoval(s: PoolState, user: string, x: real, y: real)
    requires IsReserve(s.reserve0) && IsReserve(s.reserve1)
    requires x > 0.0 && y > 0.0 && x + y <= s.PositionOf(user) && x + y <= s.totalLiquidity
    ensures MayRemove(s, user, x) && MayRemove(Removed(s, user, x), user, y) && MayRemove(s, user, x + y)
    ensures Removed(Removed(s, user, x), user, y) == Removed(s, user, x + y)
  {
    SplitPaysTheSame(s.reserve0.v, x, y, s.totalLiquidity);
    SplitPaysTheSame(s.reserve1.v, x, y, s.totalLiquidity);
    var once, twice := Removed(s, user, x + y), Removed(Removed(s, user, x), user, y);
    assert twice.positions == once.positions;
  }

  // The first provider of an empty pool gets back both amounts, each from its own
  // reserve, and leaves the pool empty.
  lemma {:induction false} FirstProviderGetsBack(user: string, a0: real, a1: real, lp: real)
    requires a0 > 0.0 && a1 > 0.0 && lp > 0.0
    ensures var empty := PoolState(Finite(0.0), Finite(0.0), 0.0, map[]);
            var s := Added(empty, user, a0, a1, lp);
            && MayRemove(s, user, lp) && s.reserve0.Finite? && s.reserve1.Finite?
            && Payout(s.reserve0.v, lp, s.totalLiquidity) == a0 && Payout(s.reserve1.v, lp, s.totalLiquidity) == a1
            && Removed(s, user, lp) == PoolState(Finite(0.0), Finite(0.0), 0.0, map[user := 0.0])
  {
    var s := Added(PoolState(Finite(0.0), Finite(0.0), 0.0, map[]), user, a0, a1, lp);
    WholePayout(a0, lp);
    WholePayout(a1, lp);
    assert s.totalLiquidity == lp && s.PositionOf(user) == lp;
    assert Removed(s, user, lp).positions == map[user := 0.0];
  }

  lemma {:induction false} WholePayout(reserve: real, total: real)
    requires total > 0.0
    ensures Payout(reserve, total, total) == reserve
  {
    assert total / total == 1.0;
  }

  // A removal while the total is zero wipes out a positive reserve and spoils an empty one.
  lemma {:induction false} RemovalFromEmptyTotal(s: PoolState, user: string, lp: real)
    requires s.totalLiquidity == 0.0 && IsReserve(s.reserve0) && IsReserve(s.reserve1)
    ensures Removed(s, user, lp).reserve0 == if s.reserve0.v > 0.0 then Finite(0.0) else NaN
    ensures Removed(s, user, lp).reserve1 == if s.reserve1.v > 0.0 then Finite(0.0) else NaN
  {}
}
