/**
 * The Go side of the Redis time wheel (redis_time_wheel.go): the task record,
 * validation, the assembly of each script call, the decoding and filtering of
 * the poll reply, and the once-only stop.
 *
 * encoding/json is not part of this model: a `Codec` is any pair of
 * functions, and the lemmas that need serialising to be lossless say so with
 * `Lossless`. The clock (time.Now) is a parameter, and the Redis connection is
 * the `Store` object of TimeWheelLua.
 */
module RedisTimeWheel {
  import opened Wrappers
  import opened TimeWheelLua
  import opened ShardKeys

  /** RTaskElement as a value (its Method field is `httpMethod`); the opaque request payload `Req` is kept as its JSON text. */
  datatype Task = Task(key: string, callbackURL: string, httpMethod: string, req: string, header: map<string, string>)

  /** The *RTaskElement a caller passes to AddTask, which AddTask updates in place. */
  class TaskElement {
    var key: string
    var callbackURL: string
    var httpMethod: string
    var req: string
    var header: map<string, string>

    function Value(): Task
      reads this
    {
      Task(key, callbackURL, httpMethod, req, header)
    }

    constructor (t: Task)
      ensures Value() == t
    {
      key, callbackURL, httpMethod, req, header := t.key, t.callbackURL, t.httpMethod, t.req, t.header;
    }
  }

  /** json.Marshal and json.Unmarshal for RTaskElement. */
  datatype Codec = Codec(encode: Task -> string, decode: string -> Option<Task>)

  ghost predicate Lossless(codec: Codec)
  {
    forall t :: codec.decode(codec.encode(t)) == Some(t)
  }

  datatype Error = InvalidMethod(name: string) | InvalidUrl(url: string) | InvalidReplies

  const METHOD_GET := "GET"
  const METHOD_POST := "POST"

  /** strings.HasPrefix */
  predicate HasPrefix(s: string, prefix: string)
  {
    |prefix| <= |s| && s[..|prefix|] == prefix
  }

  predicate AllowedMethod(name: string)
  {
    name == METHOD_GET || name == METHOD_POST
  }

  predicate SchemeQualified(url: string)
  {
    HasPrefix(url, "http://") || HasPrefix(url, "https://")
  }

  /**
   * addTaskPrecheck: the method must be exactly GET or POST (checked first),
   * and the callback URL must start with http:// or https://.
   */
  function AddTaskPrecheck(t: Task): (r: Option<Error>)
    ensures r.None? <==> AllowedMethod(t.httpMethod) && SchemeQualified(t.callbackURL)
    ensures r == Some(InvalidMethod(t.httpMethod)) <==> !AllowedMethod(t.httpMethod)
    ensures r == Some(InvalidUrl(t.callbackURL)) <==> AllowedMethod(t.httpMethod) && !SchemeQualified(t.callbackURL)
  {
    if t.httpMethod != METHOD_GET && t.httpMethod != METHOD_POST then Some(InvalidMethod(t.httpMethod))
    else if !HasPrefix(t.callbackURL, "http://") && !HasPrefix(t.callbackURL, "https://") then Some(InvalidUrl(t.callbackURL))
    else None
  }

  // ---------------------------------------------------------------------
  // Decoding the poll reply
  // ---------------------------------------------------------------------

  /** gocast.ToStringSlice on a reply element; a bulk string is taken to give no strings. */
  function ToStringSlice(r: Reply): (xs: seq<string>)
    ensures r.Multi? ==> xs == r.items
    ensures r.Bulk? ==> xs == []
  {
    match r
    case Multi(xs) => xs
    case Bulk(_) => []
  }

  /** gocast.ToString on a reply element; an array is taken to give "". */
  function ToString(r: Reply): (s: string)
    ensures r.Bulk? ==> s == r.text
    ensures r.Multi? ==> s == ""
  {
    match r
    case Bulk(s) => s
    case Multi(_) => ""
  }

  /** What one claimed element contributes: its task, unless it fails to decode or is tombstoned. */
  function Keep(item: Reply, deleted: set<string>, codec: Codec): seq<Task>
  {
    match codec.decode(ToString(item))
    case None => []
    case Some(t) => if t.key in deleted then [] else [t]
  }

  /** The tasks of the claimed elements, in reply order, that decode and are not tombstoned. */
  function Survivors(items: seq<Reply>, deleted: set<string>, codec: Codec): (tasks: seq<Task>)
    ensures |tasks| <= |items|
    ensures forall t :: t in tasks ==> t.key !in deleted
    decreases |items|
  {
    if items == [] then []
    else Survivors(items[..|items| - 1], deleted, codec) + Keep(items[|items| - 1], deleted, codec)
  }

  /**
   * The result getExecutableTasks builds from the reply: an error for an
   * empty reply, otherwise the survivors of elements 1.. against the
   * tombstones in element 0.
   */
  function ExecutableTasks(replies: seq<Reply>, codec: Codec): (r: Result<seq<Task>, Error>)
    ensures r.Failure? <==> replies == []
    ensures r.Success? ==> |r.value| <= |replies| - 1
  {
    if |replies| == 0 then Failure(InvalidReplies)
    else Success(Survivors(replies[1..], Elems(ToStringSlice(replies[0])), codec))
  }

  /** A task survives exactly when some claimed element decodes to it and its key is not tombstoned. */
  lemma {:induction false} SurvivorsMembership(items: seq<Reply>, deleted: set<string>, codec: Codec, t: Task)
    ensures t in Survivors(items, deleted, codec) <==>
            t.key !in deleted && exists i :: 0 <= i < |items| && codec.decode(ToString(items[i])) == Some(t)
    decreases |items|
  {
    if items != [] {
      var init, last := items[..|items| - 1], items[|items| - 1];
      SurvivorsMembership(init, deleted, codec, t);
      if t.key !in deleted && exists i :: 0 <= i < |items| && codec.decode(ToString(items[i])) == Some(t) {
        var i :| 0 <= i < |items| && codec.decode(ToString(items[i])) == Some(t);
        if i < |items| - 1 {
          assert init[i] == items[i];
        }
      }
      if exists i :: 0 <= i < |init| && codec.decode(ToString(init[i])) == Some(t) {
        var i :| 0 <= i < |init| && codec.decode(ToString(init[i])) == Some(t);
        assert items[i] == init[i];
      }
    }
  }

  lemma {:induction false} SurvivorsAppend(a: seq<Reply>, b: seq<Reply>, deleted: set<string>, codec: Codec)
    ensures Survivors(a + b, deleted, codec) == Survivors(a, deleted, codec) + Survivors(b, deleted, codec)
    decreases |b|
  {
    if b == [] {
      assert a + b == a;
    } else {
      var init := b[..|b| - 1];
      assert (a + b)[..|a + b| - 1] == a + init;
      assert (a + b)[|a + b| - 1] == b[|b| - 1];
      SurvivorsAppend(a, init, deleted, codec);
    }
  }

  /** A malformed element is skipped on its own: the rest of the batch is unaffected. */
  lemma MalformedSkipped(before: seq<Reply>, bad: Reply, after: seq<Reply>, deleted: set<string>, codec: Codec)
    requires codec.decode(ToString(bad)) == None
    ensures Survivors(before + [bad] + after, deleted, codec) == Survivors(before + after, deleted, codec)
  {
    var withBad := before + [bad];
    assert before + [bad] + after == withBad + after;
    SurvivorsAppend(withBad, after, deleted, codec);
    assert withBad[..|withBad| - 1] == before && withBad[|withBad| - 1] == bad;
    assert Survivors(withBad, deleted, codec) == Survivors(before, deleted, codec);
    SurvivorsAppend(before, after, deleted, codec);
  }

  /** Elements that all decode to live tasks are all kept. */
  lemma {:induction false} ValidElementsKept(items: seq<Reply>, deleted: set<string>, codec: Codec)
    requires forall i :: 0 <= i < |items| ==>
               codec.decode(ToString(items[i])).Some? && codec.decode(ToString(items[i])).value.key !in deleted
    ensures |Survivors(items, deleted, codec)| == |items|
    decreases |items|
  {
    if items != [] {
      ValidElementsKept(items[..|items| - 1], deleted, codec);
    }
  }

  /**
   * Partial corruption: one malformed element among valid, live ones costs
   * exactly that element.
   */
  lemma OneCorruptEntry(before: seq<Reply>, bad: Reply, after: seq<Reply>, deleted: set<string>, codec: Codec)
    requires codec.decode(ToString(bad)) == None
    requires forall i :: 0 <= i < |before + after| ==>
               codec.decode(ToString((before + after)[i])).Some?
               && codec.decode(ToString((before + after)[i])).value.key !in deleted
    ensures |Survivors(before + [bad] + after, deleted, codec)| == |before| + |after|
  {
    MalformedSkipped(before, bad, after, deleted, codec);
    ValidElementsKept(before + after, deleted, codec);
  }

  /**
   * The decoding loops of getExecutableTasks: gather the tombstones of
   * element 0 into a set, then keep each later element that decodes and is
   * not tombstoned.
   */
  method DecodeReplies(replies: seq<Reply>, codec: Codec) returns (r: Result<seq<Task>, Error>)
    ensures r == ExecutableTasks(replies, codec)
  {
    if |replies| == 0 {
      return Failure(InvalidReplies);
    }
    var deleteds := ToStringSlice(replies[0]);
    var deletedSet: set<string> := {};
    for i := 0 to |deleteds|
      invariant deletedSet == Elems(deleteds[..i])
    {
      assert deleteds[..i + 1] == deleteds[..i] + [deleteds[i]];
      deletedSet := deletedSet + {deleteds[i]};
    }
    assert deleteds[..|deleteds|] == deleteds;
    var tasks: seq<Task> := [];
    for i := 1 to |replies|
      invariant tasks == Survivors(replies[1..i], deletedSet, codec)
    {
      assert replies[1..i + 1][..i - 1] == replies[1..i];
      assert replies[1..i + 1][i - 1] == replies[i];
      match codec.decode(ToString(replies[i]))
      case None =>
      case Some(task) =>
        if task.key !in deletedSet {
          tasks := tasks + [task];
        }
    }
    assert replies[1..|replies|] == replies[1..];
    r := Success(tasks);
  }

  // ---------------------------------------------------------------------
  // The time wheel
  // ---------------------------------------------------------------------

  class RTimeWheel {
    const store: Store
    const codec: Codec
    const minuteFormat: MinuteFormat

    /** The sync.Once guard, whether stopc is closed, and whether the ticker is stopped. */
    var onceDone: bool
    var stopClosed: bool
    var tickerStopped: bool

    ghost predicate Valid()
      reads this, store
    {
      store.Valid() && stopClosed == onceDone && tickerStopped == onceDone
    }

    /** NewRTimeWheel, without starting the ticker loop. */
    constructor (store: Store, codec: Codec, minuteFormat: MinuteFormat)
      requires store.Valid()
      ensures Valid()
      ensures this.store == store && this.codec == codec && this.minuteFormat == minuteFormat
      ensures !onceDone && !stopClosed && !tickerStopped
    {
      this.store, this.codec, this.minuteFormat := store, codec, minuteFormat;
      onceDone, stopClosed, tickerStopped := false, false, false;
    }

    /** close(r.stopc); closing a channel twice panics, hence the precondition. */
    method CloseStop()
      requires !stopClosed
      modifies this`stopClosed
      ensures stopClosed
    {
      stopClosed := true;
    }

    /** Stop: the first call closes stopc and stops the ticker; later calls change nothing. */
    method Stop()
      requires Valid()
      modifies this
      ensures Valid()
      ensures onceDone && stopClosed && tickerStopped
      ensures old(onceDone) ==> unchanged(this)
    {
      if !onceDone {
        CloseStop();
        tickerStopped := true;
        onceDone := true;
      }
    }

    /**
     * AddTask: validate; on success set the task's key, serialise it, and run
     * LuaAddTasks with the task and tombstone keys of the minute of
     * `executeAt`, the score executeAt.Unix(), the body and the key.
     */
    method AddTask(key: string, task: TaskElement, executeAt: Instant) returns (err: Option<Error>)
      requires Valid()
      modifies task, store
      ensures Valid()
      ensures err == AddTaskPrecheck(old(task.Value()))
      ensures err.Some? ==> task.Value() == old(task.Value()) && store.State() == old(store.State())
      ensures err.None? ==> task.Value() == old(task.Value()).(key := key)
      ensures err.None? ==>
                store.State() == AddTasksScript(old(store.State()), GetMinuteSlice(minuteFormat, executeAt),
                                                GetDeleteSetKey(minuteFormat, executeAt), Unix(executeAt),
                                                codec.encode(task.Value()), key).0
    {
      err := AddTaskPrecheck(task.Value());
      if err.Some? {
        return;
      }
      task.key := key;
      var taskBody := codec.encode(task.Value());
      var added := store.AddTasks(GetMinuteSlice(minuteFormat, executeAt), GetDeleteSetKey(minuteFormat, executeAt),
                                  Unix(executeAt), taskBody, key);
    }

    /** RemoveTask: run LuaDeleteTask on the tombstone set of the minute of `executeAt`. */
    method RemoveTask(key: string, executeAt: Instant)
      requires Valid()
      modifies store
      ensures Valid()
      ensures store.State() == DeleteTaskScript(old(store.State()), GetDeleteSetKey(minuteFormat, executeAt), key).0
    {
      var scnt := store.DeleteTask(GetDeleteSetKey(minuteFormat, executeAt), key);
    }

    /**
     * getExecutableTasks at `now`: both shard keys come from `now`, the scores
     * are [now truncated to the second, one second later], and the reply of
     * LuaZrangeTasks is decoded and filtered.
     */
    method GetExecutableTasks(now: Instant) returns (r: Result<seq<Task>, Error>, ghost reply: seq<Reply>)
      requires Valid()
      modifies store
      ensures Valid()
      ensures var w := PollWindow(now);
              store.State() == ZrangeTasksState(old(store.State()), GetMinuteSlice(minuteFormat, now), w.score1, w.score2)
      ensures var w := PollWindow(now);
              IsZrangeReply(reply, old(store.State()), GetMinuteSlice(minuteFormat, now),
                            GetDeleteSetKey(minuteFormat, now), w.score1, w.score2)
      ensures r == ExecutableTasks(reply, codec)
    {
      var minuteSlice := GetMinuteSlice(minuteFormat, now);
      var deleteSetKey := GetDeleteSetKey(minuteFormat, now);
      var nowSecond := GetTimeSecond(now);
      var score1 := Unix(nowSecond);
      var score2 := Unix(AddSecond(nowSecond));
      var rawReply := store.ZrangeTasks(minuteSlice, deleteSetKey, score1, score2);
      reply := rawReply;
      r := DecodeReplies(rawReply, codec);
    }
  }
}
