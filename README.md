# Distributed time wheel over Redis — a Dafny model

The time wheel stores delayed HTTP callback tasks in Redis and lets any number of
scheduler instances share them. Each task lives in a per-minute sorted set whose
score is the second it is due. A cancellation does not touch that sorted set. Instead
it adds the task's key to a per-minute tombstone set, which the scheduler uses
afterwards to filter the task out ("lazy delete"). Once a second, a tick runs a Lua
script. The script reads both the tombstone set and the entries due in the current
and the next second, removes those entries from the sorted set, and returns both.
Because Redis runs a script without interleaving, an entry is handed out by at most
one poll. The Go side decodes this reply and drops entries that are undecodable or
tombstoned. The rest go to the dispatcher.

The model has these modules:

- `Keyspace` (keyspace.dfy): the Redis keyspace as a value. It holds sorted sets,
  sets, expiry deadlines and a clock, and gives the effect of each command the
  scripts use: SREM, SADD, SCARD, EXPIRE, ZADD and ZREMRANGEBYSCORE. Clock steps
  make expired keys disappear. The invariant `Wf` says what Redis guarantees:
  no empty collection is kept, and deadlines belong to live keys and lie in the
  future.
- `TimeWheelLua` (lua.dfy): each of the three scripts is given as a function on the
  keyspace, and also as a method of the `Store` class. The method runs the script's
  Redis calls in order on the store's fields and is proved to reach the state the
  function gives. The poll's SMEMBERS and ZRANGE BYSCORE are loops, and so is the
  loop that builds the reply.
- `Interleavings` (interleavings.dfy): any concurrent history is a sequence of
  whole script runs and clock steps. Over every such sequence, the polls that hand
  out an entry never outnumber its registrations, plus one if it was present at
  the start.
- `ShardKeys` (shard.dfy): instants, the two per-minute keys, their Redis Cluster
  hash tag and the poll window.
- `RedisTimeWheel` (wheel.dfy): tasks, validation, reply decoding, and covers:
  - the decoding loops of `getExecutableTasks`;
  - the `RTimeWheel` object, whose `AddTask`, `RemoveTask`, `getExecutableTasks`
    and once-only `Stop` act on a `Store`.
- `Delivery` (delivery.dfy): end-to-end consequences:
  - a cancel suppresses delivery;
  - a re-register clears the tombstone;
  - a tombstone lapses 120 s after the first cancel on a shard;
  - the published cancel script does not do this at all (see Findings).

Collaborators the model cannot see are parameters:

- the clock (`time.Now`) is the `now` argument;
- `util.GetTimeMinuteStr` is a function from the minute index to a token;
- JSON is a `Codec` pair of `encode` and `decode`. The lemmas that need a
  lossless round trip require `Lossless(codec)`.

## Model

| member | source | states |
|---|---|---|
| Keyspace.SRemState | time_wheel_lua.go:18 | SREM: the member is gone from the set. Other sets, all sorted sets, other keys' expiries and the clock are unchanged. The set keeps its expiry while it has members, and a set it empties disappears together with its expiry. Keeps `Wf`. |
| Keyspace.SAddState | time_wheel_lua.go:31 | SADD: the set gains the member. Other sets, all sorted sets, other keys' expiries and the clock are unchanged. An existing set keeps its expiry, and a newly created set has none. Keeps `Wf`. |
| Keyspace.ExpireState | time_wheel_lua.go:36 | EXPIRE: on a missing key nothing changes. On a live key, a positive timeout sets the deadline to clock + timeout, and a non-positive one deletes the key and its expiry. Other keys and their expiries are unchanged. Keeps `Wf`. |
| Keyspace.ZAddState | time_wheel_lua.go:20 | ZADD: the member gets the score. The result is 1 for a new member and 0 for an existing one, whose score alone is updated. Other members, other keys, sets, expiries and the clock are unchanged. |
| Keyspace.ZRemRangeState | time_wheel_lua.go:57 | ZREMRANGEBYSCORE: exactly the members scored inside the inclusive range are removed. Other keys are unchanged. |
| Keyspace.AdvanceState | time_wheel_lua.go:24 | A clock step: a set whose deadline is reached becomes empty and loses its expiry. Every other set is unchanged and keeps its expiry. Sorted sets are untouched. Keeps `Wf`. |
| TimeWheelLua.AddTasksScript | time_wheel_lua.go:18-20 | Register: the task key is absent from the tombstone set and the body has the given score. The result is 1 exactly when the body was new. All other members and keys, the other keys' expiries and the clock are unchanged. The tombstone set keeps its expiry unless register empties it, in which case the set goes together with its expiry. |
| TimeWheelLua.DeleteTaskScript | time_wheel_lua.go:31-38 | Cancel: the tombstone set gains the key, and is unchanged if the key was already present. The result is the new cardinality. The expiry is set to clock + 120 exactly when that cardinality is 1, and is otherwise left as it was. Sorted sets are untouched. |
| TimeWheelLua.DeleteTaskAsWritten | time_wheel_lua.go:25-39 | The cancel script as published fails to compile and leaves the keyspace unchanged. |
| TimeWheelLua.ZrangeTasksState | time_wheel_lua.go:55-57 | After a poll, the sorted set keeps exactly its members outside the inclusive range, with their scores. No member in the range remains. Tombstones, expiries and other keys are unchanged. |
| TimeWheelLua.SetToSeq | time_wheel_lua.go:53 | SMEMBERS lists the set: without repetition and with exactly its elements. |
| TimeWheelLua.RangeByScore | time_wheel_lua.go:55 | ZRANGE BYSCORE lists exactly the members in the inclusive range, each once, in ascending score order. |
| TimeWheelLua.Store.SRem | time_wheel_lua.go:18 | The store reaches the SREM state. |
| TimeWheelLua.Store.SAdd | time_wheel_lua.go:31 | The store reaches the SADD state. |
| TimeWheelLua.Store.SCard | time_wheel_lua.go:33 | SCARD returns the number of members of the set. |
| TimeWheelLua.Store.SMembers | time_wheel_lua.go:53 | SMEMBERS returns the set's members, each once. |
| TimeWheelLua.Store.Expire | time_wheel_lua.go:36 | The store reaches the EXPIRE state. |
| TimeWheelLua.Store.ZAdd | time_wheel_lua.go:20 | The store reaches the ZADD state and returns its count. |
| TimeWheelLua.Store.ZRangeByScore | time_wheel_lua.go:55 | Returns the in-range members, each once, in ascending score order. |
| TimeWheelLua.Store.ZRemRangeByScore | time_wheel_lua.go:57 | The store reaches the ZREMRANGEBYSCORE state. |
| TimeWheelLua.Store.Advance | time_wheel_lua.go:24 | The clock moves on and expired tombstone sets disappear. Keeps `Wf`. |
| TimeWheelLua.Store.AddTasks | time_wheel_lua.go:6-21 | SREM then ZADD on the store reach the register function's state and result. Keeps `Wf`. |
| TimeWheelLua.Store.DeleteTask | time_wheel_lua.go:25-38 | SADD, SCARD, then EXPIRE 120 only at cardinality 1, reach the cancel function's state and result. Keeps `Wf`. |
| TimeWheelLua.Store.ZrangeTasks | time_wheel_lua.go:43-67 | The poll runs SMEMBERS, ZRANGE BYSCORE and ZREMRANGEBYSCORE. It reaches the poll function's state and replies with the full tombstone set first, then the members of the inclusive range, each once and in ascending score order. |
| Interleavings.StepPresence | time_wheel_lua.go:55-57 | One script run or clock step: an entry becomes present only by registration and absent only by a poll that claims it. Only a present entry can be claimed. |
| Interleavings.ClaimsBoundedByAdds | time_wheel_lua.go:55-57 | Over any sequence of script runs and clock steps: claims + (present at the end) ≤ (present at the start) + registrations. |
| Interleavings.AtMostOneClaim | time_wheel_lua.go:55-57 | An entry registered once, and absent before, is handed out by at most one poll of any interleaving. |
| Interleavings.NoReclaimWithoutReregister | time_wheel_lua.go:56-57 | A claimed entry is gone, and no later poll hands it out unless it is registered again. |
| Interleavings.RacingPollsClaimOnce | time_wheel_lua.go:55-57 | Two polls with possibly overlapping ranges claim a present entry exactly once if either range holds its score, and otherwise not at all. |
| ShardKeys.ShardKey | redis_time_wheel.go:206 | `prefix{token}`: the prefix, `{`, the token and `}`, so the token can be read back from the key. |
| ShardKeys.GetMinuteSlice | redis_time_wheel.go:205-207 | The task key of an instant is `xiaoxu_timewheel_task_{` + the minute token of floor(unix / 60) + `}`. |
| ShardKeys.GetDeleteSetKey | redis_time_wheel.go:209-211 | The tombstone key of an instant is `xiaoxu_timewheel_delset_{` + the minute token of floor(unix / 60) + `}`. |
| ShardKeys.PollWindow | redis_time_wheel.go:166-168 | The poll's scores: score1 is now truncated to its second, and score2 is one second later. |
| ShardKeys.IndexOf | redis_time_wheel.go:204 | The first position of a character, or none exactly when it does not occur. |
| ShardKeys.HashTagOfShardKey | redis_time_wheel.go:204-206 | The hash tag of `prefix{token}` is determined by the token alone. |
| ShardKeys.ShardKeysShareHashTag | redis_time_wheel.go:204-211 | For every instant, the task key and the tombstone key have the same hash tag. It is the minute token itself when the token is non-empty and has no `}`. |
| ShardKeys.ShardKeysNeverCollide | redis_time_wheel.go:205-211 | No task key equals any tombstone key, whatever the instants. |
| ShardKeys.ShardKeyInjective | redis_time_wheel.go:205-211 | Two shard keys with one prefix are equal exactly when their tokens are. |
| ShardKeys.ShardKeysFollowMinuteToken | redis_time_wheel.go:205-211 | Each key depends on the instant only through the minute token, in both directions. |
| ShardKeys.ShardPerMinute | redis_time_wheel.go:205-211 | With a format that tells minutes apart, two instants share a shard exactly when they share a minute. |
| ShardKeys.PollWindowCovers | redis_time_wheel.go:166-168 | The window is [now's second, now's second + 1]. A score is claimed by the tick at `now` exactly when it is that second or the next one. |
| ShardKeys.NoEarlyClaimAcrossMinute | redis_time_wheel.go:164-168 | In the last second of a minute, the next second is not claimed by that tick: it lies in the next minute's shard, not the one polled. |
| RedisTimeWheel.TaskElement.constructor | redis_time_wheel.go:27-34 | The mutable task record that AddTask updates in place holds exactly the given field values. |
| RedisTimeWheel.ToStringSlice | redis_time_wheel.go:181 | Element 0 of the reply, an array, is read as exactly its strings in order. A bulk string there is read as no strings, a choice the model makes. |
| RedisTimeWheel.ToString | redis_time_wheel.go:190 | A claimed element, a bulk string, is read as exactly its text. An array there is read as "", a choice the model makes. |
| RedisTimeWheel.AddTaskPrecheck | redis_time_wheel.go:151-159 | A task is accepted exactly when its method is "GET" or "POST" and its URL starts with "http://" or "https://". A bad method is reported first, a bad URL only when the method is allowed. |
| RedisTimeWheel.Survivors | redis_time_wheel.go:188-199 | At most one task per reply element, and none with a tombstoned key. |
| RedisTimeWheel.ExecutableTasks | redis_time_wheel.go:176-201 | An empty reply is an error, and only that. Otherwise there are at most len(replies) − 1 tasks. |
| RedisTimeWheel.SurvivorsMembership | redis_time_wheel.go:188-199 | A task is delivered exactly when some claimed element decodes to it and its key is not tombstoned. |
| RedisTimeWheel.SurvivorsAppend | redis_time_wheel.go:188-199 | Filtering keeps reply order: the result for a concatenation is the concatenation of the results. |
| RedisTimeWheel.MalformedSkipped | redis_time_wheel.go:190-193 | An undecodable element is skipped on its own and leaves the rest of the result unchanged. |
| RedisTimeWheel.ValidElementsKept | redis_time_wheel.go:188-199 | Elements that all decode to tasks with live keys are all kept. |
| RedisTimeWheel.OneCorruptEntry | redis_time_wheel.go:190-193 | One corrupt element among valid live ones costs exactly that element. |
| RedisTimeWheel.DecodeReplies | redis_time_wheel.go:176-201 | The two loops (tombstone set, then filtered tasks) compute exactly the decoded and filtered result. |
| RedisTimeWheel.RTimeWheel.constructor | redis_time_wheel.go:46-56 | A new wheel is running: not stopped, and its channel not closed. |
| RedisTimeWheel.RTimeWheel.CloseStop | redis_time_wheel.go:60 | close(stopc), only when it is not yet closed. |
| RedisTimeWheel.RTimeWheel.Stop | redis_time_wheel.go:58-63 | After Stop, the once flag is set, stopc is closed and the ticker is stopped. A second call changes nothing. |
| RedisTimeWheel.RTimeWheel.AddTask | redis_time_wheel.go:65-85 | Returns the precheck's error before touching the task or the store. On success, task.Key is overwritten with `key`, and the store reaches the register state. That call uses the minute's two keys, score executeAt.Unix(), the encoded updated task, and `key`. |
| RedisTimeWheel.RTimeWheel.RemoveTask | redis_time_wheel.go:88-95 | The store reaches the cancel state for `key` on the tombstone set of executeAt's minute. |
| RedisTimeWheel.RTimeWheel.GetExecutableTasks | redis_time_wheel.go:162-201 | Both keys come from the same `now`, and the poll covers [now's second, +1]. The store reaches the poll state, and the result is the decode of that poll's reply. |
| Delivery.ReplyTombstones | redis_time_wheel.go:181-185 | The decoder's tombstone set is exactly the set held in Redis at the poll. |
| Delivery.DeliveredIffNotTombstoned | redis_time_wheel.go:181-199 | With a lossless codec, a task whose body the poll claims is delivered exactly when its key is not tombstoned. |
| Delivery.CancelSuppressesDelivery | time_wheel_lua.go:18-61 | Register, cancel, then a poll covering the score. The body is claimed, its key is in element 0 of the reply, and no delivered task has that key. |
| Delivery.ReregisterClearsTombstone | time_wheel_lua.go:18-20 | Register, cancel, register again, then a covering poll. The key is not in element 0 and the task is delivered. |
| Delivery.TombstoneTtlNotRefreshed | time_wheel_lua.go:33-37 | A second cancel of another key within the 120 s keeps the deadline set by the first cancel. |
| Delivery.RepeatedSoleCancelRearmsTtl | time_wheel_lua.go:33-37 | Cancelling the sole tombstoned key again re-arms the expiry to 120 s after the second cancel. |
| Delivery.FirstCancelArmsTtl | time_wheel_lua.go:31-37 | The first cancel on an empty tombstone set leaves exactly that key in it and arms its expiry 120 s after the cancel. |
| Delivery.CancelLapsesAfterTtl | time_wheel_lua.go:24-37 | If 120 s or more pass between the first cancel on a shard and the poll, the cancelled task is delivered after all. |
| Delivery.CancelAsWrittenDoesNotSuppress | time_wheel_lua.go:39 | With the script as published, register, cancel and a covering poll deliver the cancelled task. |
| Delivery.AddRemoveTick | redis_time_wheel.go:65-95 | On the wheel object: AddTask, RemoveTask, then the tick at the due second. Nothing with that key is delivered. |
| Delivery.AddRemoveAddTick | redis_time_wheel.go:65-95 | On the wheel object: AddTask, RemoveTask, AddTask, then the tick at the due second. The task, with its key overwritten, is delivered. |

## Left out

- The ticker loop and the goroutine fan-out (`run`, `executeTasks`, the WaitGroup, `recover`, the 30 s context) are concurrency around the poll. The store's atomicity is captured instead by arbitrary sequences of whole script runs (`Interleavings`).
- `executeTask` and the HTTP client are a foreign call, and are not part of this model.
- pkg/redis/redis.go (connection pool, dialing, `Eval` argument packing) is I/O plumbing. The keyspace is the `Store` object directly.
- `encoding/json` is library code. It is the abstract `Codec`, and `Req` is kept as its JSON text.
- `gocast` coercion of out-of-shape reply elements is library behaviour the model cannot see. The model chooses these results: a bulk string as element 0 gives no tombstones, and an array element among the claimed entries decodes from "".
- `time.Now`, `util.GetTimeMinuteStr` and `util.GetTimeSecond` are not shown. `now` is a parameter, the minute token is an arbitrary function of floor(unix / 60), and the second is truncated.
- Real-time expiry is modelled only as a stored deadline and an explicit clock step (`Advance`), not as wall-clock behaviour.
- Scores are integers; Redis's floating-point scores are not modelled, since the wheel only ever stores whole seconds.
- TimeWheelLua.RangeByScore: entries with equal scores come out in an unspecified order, while Redis orders them lexicographically.
- RedisTimeWheel.RTimeWheel.AddTask: a failing `Eval` (network or Redis error) is not modelled. The store never fails, so the only error returned is the precheck's.
- RedisTimeWheel.RTimeWheel.RemoveTask: returns no error for the same reason. The store-level consequence of the published script's compile error is modelled separately by `DeleteTaskAsWritten`.
- RedisTimeWheel.RTimeWheel.GetExecutableTasks: the transport error branch (redis_time_wheel.go:172-174) is not modelled for the same reason.
- The constructor does not start the ticker goroutine.

## Findings

| source | as written | input that shows it | evidently intended | confidence | as-written member | corrected member |
|---|---|---|---|---|---|---|
| time_wheel_lua.go:39 | A stray `)` follows `return scnt` inside the cancel script's text. Lua rejects the script, so every RemoveTask fails and no tombstone is ever written. | AddTask(k, t, at); RemoveTask(k, at); the tick at `at` | SADD the key, SCARD, EXPIRE 120 at cardinality 1, return the count, so that the poll suppresses t | high; not executed | Delivery.CancelAsWrittenDoesNotSuppress | TimeWheelLua.DeleteTaskScript |
