/**
 * The three Lua scripts of time_wheel_lua.go. Redis runs each script as one
 * atomic step, so each is given twice: a function from the keyspace before the
 * script to the keyspace after it (with the script's return value), and a
 * method of the `Store` class that runs the script's Redis calls in order on
 * the store's fields and is proved to agree with that function.
 */
module TimeWheelLua {
  import opened Keyspace

  /** The expiry, in seconds, that the cancel script arms on a tombstone set. */
  const DELETE_SET_TTL := 120

  /** A Redis reply element: a bulk string, or an array of bulk strings. */
  datatype Reply = Bulk(text: string) | Multi(items: seq<string>)

  function Elems(xs: seq<string>): set<string>
  {
    set x | x in xs
  }

  predicate Distinct(xs: seq<string>)
  {
    forall i, j :: 0 <= i < j < |xs| ==> xs[i] != xs[j]
  }

  /**
   * `ts` lists the members of `z` with a score in [lo, hi], each once, in
   * ascending score order (members with equal scores in any order).
   */
  ghost predicate IsRangeListing(ts: seq<string>, z: ZSet, lo: int, hi: int)
  {
    && Distinct(ts)
    && Elems(ts) == RangeMembers(z, lo, hi)
    && (forall i :: 0 <= i < |ts| ==> ts[i] in z)
    && (forall i, j :: 0 <= i < j < |ts| ==> z[ts[i]] <= z[ts[j]])
  }

  /** The strings of a sequence of replies; a non-string element reads as "". */
  function BulkTexts(rs: seq<Reply>): (ts: seq<string>)
    ensures |ts| == |rs|
    ensures forall i :: 0 <= i < |rs| && rs[i].Bulk? ==> ts[i] == rs[i].text
  {
    seq(|rs|, i requires 0 <= i < |rs| => if rs[i].Bulk? then rs[i].text else "")
  }

  // ---------------------------------------------------------------------
  // The scripts as functions on the keyspace
  // ---------------------------------------------------------------------

  /**
   * LuaAddTasks (register): SREM the task key from the tombstone set, then
   * ZADD the task body at its score. Returns ZADD's count of new members.
   */
  function AddTasksScript(s: StoreState, zsetKey: string, deleteSetKey: string,
                          score: int, task: string, taskKey: string): (r: (StoreState, int))
    ensures taskKey !in Members(r.0, deleteSetKey)
    ensures Members(r.0, deleteSetKey) == Members(s, deleteSetKey) - {taskKey}
    ensures r.0.sets - {deleteSetKey} == s.sets - {deleteSetKey}
    ensures ZSetOf(r.0, zsetKey) == ZSetOf(s, zsetKey)[task := score]
    ensures forall k :: k != zsetKey ==> ZSetOf(r.0, k) == ZSetOf(s, k)
    ensures r.1 == if task in ZSetOf(s, zsetKey) then 0 else 1
    ensures r.0.deadlines - {deleteSetKey} == s.deadlines - {deleteSetKey}
    ensures Members(r.0, deleteSetKey) != {} ==> r.0.deadlines == s.deadlines
    ensures deleteSetKey in s.sets && Members(r.0, deleteSetKey) == {} ==> deleteSetKey !in r.0.deadlines
    ensures r.0.clock == s.clock
    ensures Wf(s) ==> Wf(r.0)
  {
    var s1 := SRemState(s, deleteSetKey, taskKey);
    ZAddState(s1, zsetKey, score, task)
  }

  /**
   * LuaDeleteTask (cancel): SADD the task key to the tombstone set, read its
   * cardinality, and arm a 120 s expiry only when that cardinality is 1.
   * Returns the cardinality.
   *
   * The script text in the source ends with a stray `)` after `return scnt`,
   * which the Lua compiler rejects, so Redis would refuse to run it at all.
   * This function models the script's evident intent; `DeleteTaskAsWritten`
   * models the text as it stands.
   */
  function DeleteTaskScript(s: StoreState, deleteSetKey: string, taskKey: string): (r: (StoreState, nat))
    ensures Members(r.0, deleteSetKey) == Members(s, deleteSetKey) + {taskKey}
    ensures taskKey in Members(s, deleteSetKey) ==> Members(r.0, deleteSetKey) == Members(s, deleteSetKey)
    ensures r.1 == |Members(r.0, deleteSetKey)| && r.1 >= 1
    ensures r.0.sets - {deleteSetKey} == s.sets - {deleteSetKey}
    ensures r.1 == 1 ==> r.0.deadlines == s.deadlines[deleteSetKey := s.clock + DELETE_SET_TTL]
    ensures r.1 != 1 ==> r.0.deadlines == s.deadlines
    ensures r.0.zsets == s.zsets && r.0.clock == s.clock
    ensures Wf(s) ==> Wf(r.0)
  {
    var s1 := SAddState(s, deleteSetKey, taskKey);
    var scnt := Cardinality(s1, deleteSetKey);
    var s2 := if scnt == 1 then ExpireState(s1, deleteSetKey, DELETE_SET_TTL) else s1;
    (s2, scnt)
  }

  datatype ScriptError = CompileError

  /**
   * LuaDeleteTask as its text stands: the script does not compile, so the
   * call fails and the keyspace is left as it was.
   */
  function DeleteTaskAsWritten(s: StoreState, deleteSetKey: string, taskKey: string): (r: (StoreState, ScriptError))
    ensures r.0 == s
  {
    (s, CompileError)
  }

  /** The members LuaZrangeTasks claims: those scored in [score1, score2]. */
  function Claimed(s: StoreState, zsetKey: string, score1: int, score2: int): set<string>
  {
    RangeMembers(ZSetOf(s, zsetKey), score1, score2)
  }

  /**
   * The keyspace after LuaZrangeTasks (poll-and-claim): every claimed member
   * is gone from the sorted set, nothing else changes.
   */
  function ZrangeTasksState(s: StoreState, zsetKey: string, score1: int, score2: int): (r: StoreState)
    ensures ZSetOf(r, zsetKey).Keys == ZSetOf(s, zsetKey).Keys - Claimed(s, zsetKey, score1, score2)
    ensures forall m :: m in ZSetOf(r, zsetKey) ==> !InRange(ZSetOf(r, zsetKey)[m], score1, score2)
    ensures forall m :: m in ZSetOf(r, zsetKey) ==> ZSetOf(r, zsetKey)[m] == ZSetOf(s, zsetKey)[m]
    ensures forall k :: k != zsetKey ==> ZSetOf(r, k) == ZSetOf(s, k)
    ensures r.sets == s.sets && r.deadlines == s.deadlines && r.clock == s.clock
    ensures Wf(s) ==> Wf(r)
  {
    ZRemRangeState(s, zsetKey, score1, score2)
  }

  /**
   * The reply of LuaZrangeTasks run on `s`: element 0 is the whole tombstone
   * set, the rest are the claimed members in ascending score order.
   */
  ghost predicate IsZrangeReply(reply: seq<Reply>, s: StoreState, zsetKey: string, deleteSetKey: string,
                                score1: int, score2: int)
  {
    && |reply| >= 1
    && reply[0].Multi?
    && Distinct(reply[0].items)
    && Elems(reply[0].items) == Members(s, deleteSetKey)
    && (forall i :: 1 <= i < |reply| ==> reply[i].Bulk?)
    && IsRangeListing(BulkTexts(reply[1..]), ZSetOf(s, zsetKey), score1, score2)
  }

  // ---------------------------------------------------------------------
  // Orderings that Redis computes inside SMEMBERS and ZRANGE
  // ---------------------------------------------------------------------

  /** SMEMBERS: the members of a set, each once, in some order. */
  method SetToSeq(s: set<string>) returns (xs: seq<string>)
    ensures Distinct(xs) && Elems(xs) == s
  {
    xs := [];
    var rest := s;
    while rest != {}
      invariant Distinct(xs)
      invariant Elems(xs) + rest == s
      invariant Elems(xs) !! rest
      decreases rest
    {
      var x :| x in rest;
      xs := xs + [x];
      rest := rest - {x};
    }
  }

  lemma {:induction false} MinScoreExists(z: ZSet, rest: set<string>)
    requires rest != {} && rest <= z.Keys
    ensures exists m :: m in rest && forall o :: o in rest ==> z[m] <= z[o]
  {
    var x :| x in rest;
    if rest == {x} {
      assert forall o :: o in rest ==> z[x] <= z[o];
    } else {
      MinScoreExists(z, rest - {x});
      var m :| m in rest - {x} && forall o :: o in rest - {x} ==> z[m] <= z[o];
      if z[x] <= z[m] {
        assert forall o :: o in rest ==> z[x] <= z[o];
      } else {
        assert forall o :: o in rest ==> z[m] <= z[o];
      }
    }
  }

  /** ZRANGE key lo hi BYSCORE: repeatedly takes a lowest-scored member left. */
  method RangeByScore(z: ZSet, lo: int, hi: int) returns (targets: seq<string>)
    ensures IsRangeListing(targets, z, lo, hi)
  {
    var all := RangeMembers(z, lo, hi);
    var rest := all;
    targets := [];
    while rest != {}
      invariant rest <= all
      invariant forall i :: 0 <= i < |targets| ==> targets[i] in all
      invariant Elems(targets) + rest == all
      invariant Elems(targets) !! rest
      invariant Distinct(targets)
      invariant forall i, j :: 0 <= i < j < |targets| ==> z[targets[i]] <= z[targets[j]]
      invariant forall i, o :: 0 <= i < |targets| && o in rest ==> z[targets[i]] <= z[o]
      decreases rest
    {
      MinScoreExists(z, rest);
      var m :| m in rest && forall o :: o in rest ==> z[m] <= z[o];
      targets := targets + [m];
      rest := rest - {m};
    }
  }

  // ---------------------------------------------------------------------
  // The store and the scripts as atomic methods on it
  // ---------------------------------------------------------------------

  class Store {
    var zsets: map<string, ZSet>
    var sets: map<string, set<string>>
    var deadlines: map<string, int>
    var clock: int

    function State(): StoreState
      reads this
    {
      StoreState(zsets, sets, deadlines, clock)
    }

    ghost predicate Valid()
      reads this
    {
      Wf(State())
    }

    /** An empty keyspace whose clock reads `clock`. */
    constructor (clock: int)
      ensures Valid()
      ensures State() == StoreState(map[], map[], map[], clock)
    {
      zsets, sets, deadlines := map[], map[], map[];
      this.clock := clock;
    }

    method SRem(key: string, member: string)
      modifies this
      ensures State() == SRemState(old(State()), key, member)
    {
      if key in sets {
        var rest := sets[key] - {member};
        if rest == {} {
          sets, deadlines := sets - {key}, deadlines - {key};
        } else {
          sets := sets[key := rest];
        }
      }
    }

    method SAdd(key: string, member: string)
      modifies this
      ensures State() == SAddState(old(State()), key, member)
    {
      if key in sets {
        sets := sets[key := sets[key] + {member}];
      } else {
        sets, deadlines := sets[key := {member}], deadlines - {key};
      }
    }

    method SCard(key: string) returns (n: nat)
      ensures n == |Members(State(), key)|
    {
      n := if key in sets then |sets[key]| else 0;
    }

    method SMembers(key: string) returns (xs: seq<string>)
      ensures Distinct(xs) && Elems(xs) == Members(State(), key)
    {
      xs := SetToSeq(if key in sets then sets[key] else {});
    }

    method Expire(key: string, seconds: int)
      modifies this
      ensures State() == ExpireState(old(State()), key, seconds)
    {
      if key in sets {
        if seconds <= 0 {
          sets, deadlines := sets - {key}, deadlines - {key};
        } else {
          deadlines := deadlines[key := clock + seconds];
        }
      }
    }

    method ZAdd(key: string, score: int, member: string) returns (added: int)
      modifies this
      ensures (State(), added) == ZAddState(old(State()), key, score, member)
    {
      var z := if key in zsets then zsets[key] else map[];
      added := if member in z then 0 else 1;
      zsets := zsets[key := z[member := score]];
    }

    method ZRangeByScore(key: string, lo: int, hi: int) returns (targets: seq<string>)
      ensures IsRangeListing(targets, ZSetOf(State(), key), lo, hi)
    {
      targets := RangeByScore(if key in zsets then zsets[key] else map[], lo, hi);
    }

    method ZRemRangeByScore(key: string, lo: int, hi: int)
      modifies this
      ensures State() == ZRemRangeState(old(State()), key, lo, hi)
    {
      if key in zsets {
        var z := zsets[key];
        var rest := map m | m in z && !InRange(z[m], lo, hi) :: z[m];
        zsets := if rest == map[] then zsets - {key} else zsets[key := rest];
      }
    }

    /** The clock moves on; set keys whose deadline is reached disappear. */
    method Advance(seconds: nat)
      requires Valid()
      modifies this
      ensures Valid()
      ensures State() == AdvanceState(old(State()), seconds)
    {
      clock := clock + seconds;
      var expired := set k | k in deadlines && deadlines[k] <= clock;
      sets, deadlines := sets - expired, deadlines - expired;
    }

    /** LuaAddTasks: KEYS = [zsetKey, deleteSetKey], ARGV = [score, task, taskKey]. */
    method AddTasks(zsetKey: string, deleteSetKey: string, score: int, task: string, taskKey: string)
      returns (added: int)
      requires Valid()
      modifies this
      ensures Valid()
      ensures (State(), added) == AddTasksScript(old(State()), zsetKey, deleteSetKey, score, task, taskKey)
    {
      SRem(deleteSetKey, taskKey);
      added := ZAdd(zsetKey, score, task);
    }

    /** LuaDeleteTask (intended semantics): KEYS = [deleteSetKey], ARGV = [taskKey]. */
    method DeleteTask(deleteSetKey: string, taskKey: string) returns (scnt: nat)
      requires Valid()
      modifies this
      ensures Valid()
      ensures (State(), scnt) == DeleteTaskScript(old(State()), deleteSetKey, taskKey)
    {
      SAdd(deleteSetKey, taskKey);
      scnt := SCard(deleteSetKey);
      if scnt == 1 {
        Expire(deleteSetKey, DELETE_SET_TTL);
      }
    }

    /**
     * LuaZrangeTasks: KEYS = [zsetKey, deleteSetKey], ARGV = [score1, score2].
     * Reads the tombstone set, lists and removes the members scored in
     * [score1, score2], and replies with the tombstone set followed by the
     * removed members.
     */
    method ZrangeTasks(zsetKey: string, deleteSetKey: string, score1: int, score2: int)
      returns (reply: seq<Reply>)
      requires Valid()
      modifies this
      ensures Valid()
      ensures State() == ZrangeTasksState(old(State()), zsetKey, score1, score2)
      ensures IsZrangeReply(reply, old(State()), zsetKey, deleteSetKey, score1, score2)
    {
      var deleteSet := SMembers(deleteSetKey);
      var targets := ZRangeByScore(zsetKey, score1, score2);
      ZRemRangeByScore(zsetKey, score1, score2);
      reply := [Multi(deleteSet)];
      for i := 0 to |targets|
        invariant |reply| == i + 1 && reply[0] == Multi(deleteSet)
        invariant forall j :: 0 <= j < i ==> reply[j + 1] == Bulk(targets[j])
      {
        reply := reply + [Bulk(targets[i])];
      }
      assert forall i :: 1 <= i < |reply| ==> reply[i] == Bulk(targets[i - 1]);
      assert BulkTexts(reply[1..]) == targets;
    }
  }
}
