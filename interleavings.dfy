/**
 * Any number of scheduler instances and clients share one Redis. Redis runs
 * each script without interleaving, so every concurrent history is some
 * sequence of whole script runs (and of clock steps that expire keys). This
 * module models such sequences and proves the claim guarantee of
 * LuaZrangeTasks over all of them.
 */
module Interleavings {
  import opened Keyspace
  import opened TimeWheelLua

  datatype Op =
    | AddTasksOp(zsetKey: string, deleteSetKey: string, score: int, task: string, taskKey: string)
    | DeleteTaskOp(deleteSetKey: string, taskKey: string)
    | ZrangeTasksOp(zsetKey: string, deleteSetKey: string, score1: int, score2: int)
    | AdvanceOp(seconds: nat)

  function Step(s: StoreState, op: Op): StoreState
  {
    match op
    case AddTasksOp(zk, dk, score, task, tk) => AddTasksScript(s, zk, dk, score, task, tk).0
    case DeleteTaskOp(dk, tk) => DeleteTaskScript(s, dk, tk).0
    case ZrangeTasksOp(zk, _, lo, hi) => ZrangeTasksState(s, zk, lo, hi)
    case AdvanceOp(n) => AdvanceState(s, n)
  }

  function Run(s: StoreState, ops: seq<Op>): StoreState
    decreases |ops|
  {
    if ops == [] then s else Run(Step(s, ops[0]), ops[1..])
  }

  predicate Present(s: StoreState, zsetKey: string, m: string)
  {
    m in ZSetOf(s, zsetKey)
  }

  /** `op`, run on `s`, is a poll of `zsetKey` whose reply carries `m`. */
  predicate ClaimsMember(s: StoreState, op: Op, zsetKey: string, m: string)
  {
    op.ZrangeTasksOp? && op.zsetKey == zsetKey && m in Claimed(s, zsetKey, op.score1, op.score2)
  }

  /** `op` registers `m` in the sorted set at `zsetKey`. */
  predicate AddsMember(op: Op, zsetKey: string, m: string)
  {
    op.AddTasksOp? && op.zsetKey == zsetKey && op.task == m
  }

  function Indicator(b: bool): nat
  {
    if b then 1 else 0
  }

  /** How many polls in `ops`, run from `s`, hand out `m` from `zsetKey`. */
  function ClaimCount(s: StoreState, ops: seq<Op>, zsetKey: string, m: string): nat
    decreases |ops|
  {
    if ops == [] then 0
    else Indicator(ClaimsMember(s, ops[0], zsetKey, m)) + ClaimCount(Step(s, ops[0]), ops[1..], zsetKey, m)
  }

  /** How many registrations in `ops` put `m` into `zsetKey`. */
  function AddCount(ops: seq<Op>, zsetKey: string, m: string): nat
    decreases |ops|
  {
    if ops == [] then 0 else Indicator(AddsMember(ops[0], zsetKey, m)) + AddCount(ops[1..], zsetKey, m)
  }

  /**
   * One step: a registration makes `m` present, a poll that claims it makes it
   * absent, and nothing else changes whether it is present. Only a present
   * member can be claimed.
   */
  lemma StepPresence(s: StoreState, op: Op, zsetKey: string, m: string)
    ensures ClaimsMember(s, op, zsetKey, m) ==> Present(s, zsetKey, m)
    ensures Present(Step(s, op), zsetKey, m) ==
              (AddsMember(op, zsetKey, m) || (Present(s, zsetKey, m) && !ClaimsMember(s, op, zsetKey, m)))
  {
    match op
    case AddTasksOp(_, _, _, _, _) =>
    case DeleteTaskOp(_, _) =>
    case ZrangeTasksOp(_, _, _, _) =>
    case AdvanceOp(_) =>
  }

  /**
   * Over any sequence of script runs, the polls that hand out `m` never
   * outnumber the times `m` was present to begin with or registered; and a
   * member still present at the end uses up one of those.
   */
  lemma {:induction false} ClaimsBoundedByAdds(s: StoreState, ops: seq<Op>, zsetKey: string, m: string)
    ensures ClaimCount(s, ops, zsetKey, m) + Indicator(Present(Run(s, ops), zsetKey, m))
            <= Indicator(Present(s, zsetKey, m)) + AddCount(ops, zsetKey, m)
    decreases |ops|
  {
    if ops != [] {
      StepPresence(s, ops[0], zsetKey, m);
      ClaimsBoundedByAdds(Step(s, ops[0]), ops[1..], zsetKey, m);
    }
  }

  /** At-most-one claim: a member registered once is handed out by at most one poll. */
  lemma AtMostOneClaim(s: StoreState, ops: seq<Op>, zsetKey: string, m: string)
    requires !Present(s, zsetKey, m) && AddCount(ops, zsetKey, m) <= 1
    ensures ClaimCount(s, ops, zsetKey, m) <= 1
  {
    ClaimsBoundedByAdds(s, ops, zsetKey, m);
  }

  /**
   * A claimed member is gone and is never handed out again unless it is
   * registered anew.
   */
  lemma NoReclaimWithoutReregister(s: StoreState, op: Op, ops: seq<Op>, zsetKey: string, m: string)
    requires ClaimsMember(s, op, zsetKey, m)
    requires AddCount(ops, zsetKey, m) == 0
    ensures !Present(Step(s, op), zsetKey, m)
    ensures ClaimCount(Step(s, op), ops, zsetKey, m) == 0
  {
    StepPresence(s, op, zsetKey, m);
    ClaimsBoundedByAdds(Step(s, op), ops, zsetKey, m);
  }

  /**
   * Two polls of the same shard with ranges that may overlap: a member present
   * beforehand is handed out exactly once if its score lies in either range,
   * and not at all otherwise.
   */
  lemma RacingPollsClaimOnce(s: StoreState, zsetKey: string, dk1: string, dk2: string,
                             lo1: int, hi1: int, lo2: int, hi2: int, m: string)
    requires Present(s, zsetKey, m)
    ensures var score := ZSetOf(s, zsetKey)[m];
            ClaimCount(s, [ZrangeTasksOp(zsetKey, dk1, lo1, hi1), ZrangeTasksOp(zsetKey, dk2, lo2, hi2)], zsetKey, m)
            == Indicator(InRange(score, lo1, hi1) || InRange(score, lo2, hi2))
  {
    var ops := [ZrangeTasksOp(zsetKey, dk1, lo1, hi1), ZrangeTasksOp(zsetKey, dk2, lo2, hi2)];
    var s1 := Step(s, ops[0]);
    StepPresence(s, ops[0], zsetKey, m);
    StepPresence(s1, ops[1], zsetKey, m);
    var tail := [ops[1]];
    assert ops[1..] == tail && tail[0] == ops[1] && tail[1..] == [];
    assert ClaimCount(s1, tail, zsetKey, m) == Indicator(ClaimsMember(s1, ops[1], zsetKey, m));
    assert ClaimCount(s, ops, zsetKey, m)
        == Indicator(ClaimsMember(s, ops[0], zsetKey, m)) + ClaimCount(s1, tail, zsetKey, m);
  }
}
