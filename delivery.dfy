/**
 * End-to-end consequences of the scripts and the decoder: what a poll hands
 * to the dispatcher after registrations, cancellations and clock steps.
 */
module Delivery {
  import opened Wrappers
  import opened Keyspace
  import opened TimeWheelLua
  import opened ShardKeys
  import opened RedisTimeWheel

  /** The decoder reads element 0 of a poll reply as exactly the tombstone set. */
  lemma ReplyTombstones(reply: seq<Reply>, s: StoreState, zsetKey: string, deleteSetKey: string, lo: int, hi: int)
    requires IsZrangeReply(reply, s, zsetKey, deleteSetKey, lo, hi)
    ensures Elems(ToStringSlice(reply[0])) == Members(s, deleteSetKey)
  {
  }

  /**
   * With a lossless codec, a task whose body the poll claims is delivered
   * exactly when its key is not in the tombstone set at the time of the poll.
   */
  lemma DeliveredIffNotTombstoned(reply: seq<Reply>, s: StoreState, zsetKey: string, deleteSetKey: string,
                                  lo: int, hi: int, codec: Codec, t: Task)
    requires Lossless(codec)
    requires IsZrangeReply(reply, s, zsetKey, deleteSetKey, lo, hi)
    requires codec.encode(t) in Claimed(s, zsetKey, lo, hi)
    ensures ExecutableTasks(reply, codec).Success?
    ensures t in ExecutableTasks(reply, codec).value <==> t.key !in Members(s, deleteSetKey)
  {
    var items := reply[1..];
    var deleted := Elems(ToStringSlice(reply[0]));
    ReplyTombstones(reply, s, zsetKey, deleteSetKey, lo, hi);
    var texts := BulkTexts(items);
    assert codec.encode(t) in Elems(texts);
    var i :| 0 <= i < |texts| && texts[i] == codec.encode(t);
    assert items[i] == reply[i + 1] && items[i].Bulk?;
    assert codec.decode(ToString(items[i])) == Some(t);
    SurvivorsMembership(items, deleted, codec, t);
  }

  /**
   * Cancel suppresses delivery: register, cancel, then a poll whose range
   * covers the score. The body is claimed (and so removed) and its key is in
   * element 0, and no delivered task carries that key.
   */
  lemma CancelSuppressesDelivery(s: StoreState, zsetKey: string, deleteSetKey: string, score: int,
                                 codec: Codec, t: Task, lo: int, hi: int, reply: seq<Reply>)
    requires InRange(score, lo, hi)
    requires var s1 := AddTasksScript(s, zsetKey, deleteSetKey, score, codec.encode(t), t.key).0;
             var s2 := DeleteTaskScript(s1, deleteSetKey, t.key).0;
             IsZrangeReply(reply, s2, zsetKey, deleteSetKey, lo, hi)
    ensures var s1 := AddTasksScript(s, zsetKey, deleteSetKey, score, codec.encode(t), t.key).0;
            var s2 := DeleteTaskScript(s1, deleteSetKey, t.key).0;
            codec.encode(t) in Claimed(s2, zsetKey, lo, hi)
    ensures t.key in Elems(reply[0].items)
    ensures ExecutableTasks(reply, codec).Success?
    ensures forall u :: u in ExecutableTasks(reply, codec).value ==> u.key != t.key
  {
  }

  /**
   * Re-register wins: register, cancel, register again, then a poll covering
   * the score. The key is no longer in element 0 and the task is delivered.
   */
  lemma ReregisterClearsTombstone(s: StoreState, zsetKey: string, deleteSetKey: string, score: int,
                                  codec: Codec, t: Task, lo: int, hi: int, reply: seq<Reply>)
    requires Lossless(codec)
    requires InRange(score, lo, hi)
    requires var s1 := AddTasksScript(s, zsetKey, deleteSetKey, score, codec.encode(t), t.key).0;
             var s2 := DeleteTaskScript(s1, deleteSetKey, t.key).0;
             var s3 := AddTasksScript(s2, zsetKey, deleteSetKey, score, codec.encode(t), t.key).0;
             IsZrangeReply(reply, s3, zsetKey, deleteSetKey, lo, hi)
    ensures t.key !in Elems(reply[0].items)
    ensures ExecutableTasks(reply, codec).Success? && t in ExecutableTasks(reply, codec).value
  {
    var s1 := AddTasksScript(s, zsetKey, deleteSetKey, score, codec.encode(t), t.key).0;
    var s2 := DeleteTaskScript(s1, deleteSetKey, t.key).0;
    var s3 := AddTasksScript(s2, zsetKey, deleteSetKey, score, codec.encode(t), t.key).0;
    DeliveredIffNotTombstoned(reply, s3, zsetKey, deleteSetKey, lo, hi, codec, t);
  }

  /**
   * The expiry is not refreshed by later cancels: the first cancel on an empty
   * tombstone set arms it 120 s ahead, and a cancel of another key some time
   * later leaves that deadline where it was.
   */
  lemma TombstoneTtlNotRefreshed(s: StoreState, deleteSetKey: string, k1: string, k2: string, later: nat)
    requires Wf(s) && Members(s, deleteSetKey) == {}
    requires k1 != k2 && later < DELETE_SET_TTL
    ensures var s1 := DeleteTaskScript(s, deleteSetKey, k1).0;
            var s2 := DeleteTaskScript(AdvanceState(s1, later), deleteSetKey, k2).0;
            deleteSetKey in s2.deadlines && s2.deadlines[deleteSetKey] == s.clock + DELETE_SET_TTL
  {
    var s1 := DeleteTaskScript(s, deleteSetKey, k1).0;
    var a := AdvanceState(s1, later);
    assert Members(a, deleteSetKey) == {k1};
    assert |Members(a, deleteSetKey) + {k2}| == 2;
  }

  /** Cancelling the sole tombstone again does re-arm the expiry, since the cardinality is again 1. */
  lemma RepeatedSoleCancelRearmsTtl(s: StoreState, deleteSetKey: string, k: string, later: nat)
    requires Wf(s) && Members(s, deleteSetKey) == {}
    requires later < DELETE_SET_TTL
    ensures var s1 := DeleteTaskScript(s, deleteSetKey, k).0;
            var s2 := DeleteTaskScript(AdvanceState(s1, later), deleteSetKey, k);
            s2.1 == 1 && s2.0.deadlines[deleteSetKey] == s.clock + later + DELETE_SET_TTL
  {
    var s1 := DeleteTaskScript(s, deleteSetKey, k).0;
    var a := AdvanceState(s1, later);
    assert Members(a, deleteSetKey) == {k};
  }

  /**
   * The consequence of the non-refreshing expiry: once 120 s have passed since
   * the first cancel on a shard, its tombstones are gone, and a cancelled task
   * still in the sorted set is delivered by a poll that covers it.
   */
  lemma CancelLapsesAfterTtl(s: StoreState, zsetKey: string, deleteSetKey: string, score: int,
                             codec: Codec, t: Task, wait: nat, lo: int, hi: int, reply: seq<Reply>)
    requires Lossless(codec) && Wf(s)
    requires Members(s, deleteSetKey) == {}
    requires wait >= DELETE_SET_TTL && InRange(score, lo, hi)
    requires var s1 := AddTasksScript(s, zsetKey, deleteSetKey, score, codec.encode(t), t.key).0;
             var s2 := DeleteTaskScript(s1, deleteSetKey, t.key).0;
             IsZrangeReply(reply, AdvanceState(s2, wait), zsetKey, deleteSetKey, lo, hi)
    ensures ExecutableTasks(reply, codec).Success? && t in ExecutableTasks(reply, codec).value
  {
    var s1 := AddTasksScript(s, zsetKey, deleteSetKey, score, codec.encode(t), t.key).0;
    var s2 := DeleteTaskScript(s1, deleteSetKey, t.key).0;
    var s3 := AdvanceState(s2, wait);
    FirstCancelArmsTtl(s1, deleteSetKey, t.key);
    assert Members(s3, deleteSetKey) == {};
    assert ZSetOf(s3, zsetKey) == ZSetOf(s1, zsetKey);
    DeliveredIffNotTombstoned(reply, s3, zsetKey, deleteSetKey, lo, hi, codec, t);
  }

  /** The first cancel on an empty tombstone set arms its expiry 120 s ahead. */
  lemma FirstCancelArmsTtl(s: StoreState, deleteSetKey: string, k: string)
    requires Wf(s) && Members(s, deleteSetKey) == {}
    ensures var r := DeleteTaskScript(s, deleteSetKey, k).0;
            Members(r, deleteSetKey) == {k} && r.deadlines[deleteSetKey] == s.clock + DELETE_SET_TTL
  {
  }

  /**
   * The cancel script as written: because it does not compile, a register,
   * a cancel and a poll covering the score deliver the cancelled task.
   */
  lemma CancelAsWrittenDoesNotSuppress(s: StoreState, zsetKey: string, deleteSetKey: string, score: int,
                                       codec: Codec, t: Task, lo: int, hi: int, reply: seq<Reply>)
    requires Lossless(codec)
    requires InRange(score, lo, hi)
    requires var s1 := AddTasksScript(s, zsetKey, deleteSetKey, score, codec.encode(t), t.key).0;
             IsZrangeReply(reply, DeleteTaskAsWritten(s1, deleteSetKey, t.key).0, zsetKey, deleteSetKey, lo, hi)
    ensures ExecutableTasks(reply, codec).Success? && t in ExecutableTasks(reply, codec).value
  {
    var s1 := AddTasksScript(s, zsetKey, deleteSetKey, score, codec.encode(t), t.key).0;
    DeliveredIffNotTombstoned(reply, s1, zsetKey, deleteSetKey, lo, hi, codec, t);
  }

  // ---------------------------------------------------------------------
  // The same scenarios through the time wheel's own methods
  // ---------------------------------------------------------------------

  /** AddTask, RemoveTask, then the tick at the task's own second: nothing with that key is delivered. */
  method AddRemoveTick(w: RTimeWheel, key: string, task: TaskElement, executeAt: Instant)
    returns (r: Result<seq<Task>, Error>)
    requires w.Valid()
    requires AddTaskPrecheck(task.Value()).None?
    modifies w.store, task
    ensures w.Valid()
    ensures r.Success? && forall u :: u in r.value ==> u.key != key
  {
    ghost var s := w.store.State();
    var err := w.AddTask(key, task, executeAt);
    w.RemoveTask(key, executeAt);
    ghost var reply;
    r, reply := w.GetExecutableTasks(executeAt);
    PollWindowCovers(executeAt, Unix(executeAt));
    CancelSuppressesDelivery(s, GetMinuteSlice(w.minuteFormat, executeAt), GetDeleteSetKey(w.minuteFormat, executeAt),
                             Unix(executeAt), w.codec, task.Value(), PollWindow(executeAt).score1,
                             PollWindow(executeAt).score2, reply);
  }

  /** AddTask, RemoveTask, AddTask again, then the tick at the task's second: the task is delivered. */
  method AddRemoveAddTick(w: RTimeWheel, key: string, task: TaskElement, executeAt: Instant)
    returns (r: Result<seq<Task>, Error>)
    requires w.Valid() && Lossless(w.codec)
    requires AddTaskPrecheck(task.Value()).None?
    modifies w.store, task
    ensures w.Valid()
    ensures r.Success? && task.Value() in r.value && task.Value().key == key
  {
    ghost var s := w.store.State();
    var err := w.AddTask(key, task, executeAt);
    w.RemoveTask(key, executeAt);
    err := w.AddTask(key, task, executeAt);
    ghost var reply;
    r, reply := w.GetExecutableTasks(executeAt);
    PollWindowCovers(executeAt, Unix(executeAt));
    ReregisterClearsTombstone(s, GetMinuteSlice(w.minuteFormat, executeAt), GetDeleteSetKey(w.minuteFormat, executeAt),
                              Unix(executeAt), w.codec, task.Value(), PollWindow(executeAt).score1,
                              PollWindow(executeAt).score2, reply);
  }
}
