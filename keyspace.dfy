/**
 * The part of the Redis keyspace the time wheel uses, as a value: sorted sets
 * (member to integer score) and plain string sets, the expiry deadline of each
 * set key, and the store's clock in whole seconds.
 *
 * Each function gives the effect of one Redis command. As in Redis, a
 * collection that loses its last member is deleted together with its expiry,
 * and a key created afresh carries no expiry.
 */
module Keyspace {

  /** A sorted set: member to score (whole seconds in this model). */
  type ZSet = map<string, int>

  datatype StoreState = StoreState(
    zsets: map<string, ZSet>,
    sets: map<string, set<string>>,
    deadlines: map<string, int>,
    clock: int)

  /** The members of the set at `key`; an absent key reads as the empty set. */
  function Members(s: StoreState, key: string): set<string>
  {
    if key in s.sets then s.sets[key] else {}
  }

  /** The sorted set at `key`; an absent key reads as the empty sorted set. */
  function ZSetOf(s: StoreState, key: string): ZSet
  {
    if key in s.zsets then s.zsets[key] else map[]
  }

  /**
   * What Redis maintains about its keyspace: no key holds an empty collection,
   * and an expiry belongs to a live set key and lies in the future.
   */
  ghost predicate Wf(s: StoreState)
  {
    && (forall k :: k in s.zsets ==> s.zsets[k] != map[])
    && (forall k :: k in s.sets ==> s.sets[k] != {})
    && (forall k :: k in s.deadlines ==> k in s.sets && s.deadlines[k] > s.clock)
  }

  predicate InRange(score: int, lo: int, hi: int)
  {
    lo <= score <= hi
  }

  /** The members of `z` whose score lies in the closed range [lo, hi]. */
  function RangeMembers(z: ZSet, lo: int, hi: int): set<string>
  {
    set m | m in z && InRange(z[m], lo, hi)
  }

  /** SREM key member */
  function SRemState(s: StoreState, key: string, member: string): (r: StoreState)
    ensures Members(r, key) == Members(s, key) - {member}
    ensures r.sets - {key} == s.sets - {key}
    ensures r.zsets == s.zsets && r.clock == s.clock
    ensures r.deadlines - {key} == s.deadlines - {key}
    ensures Members(r, key) != {} ==> r.deadlines == s.deadlines
    ensures key in s.sets && Members(r, key) == {} ==> key !in r.sets && key !in r.deadlines
    ensures Wf(s) ==> Wf(r)
  {
    if key !in s.sets then s
    else
      var rest := s.sets[key] - {member};
      if rest == {} then s.(sets := s.sets - {key}, deadlines := s.deadlines - {key})
      else s.(sets := s.sets[key := rest])
  }

  /** SADD key member */
  function SAddState(s: StoreState, key: string, member: string): (r: StoreState)
    ensures Members(r, key) == Members(s, key) + {member}
    ensures r.sets - {key} == s.sets - {key}
    ensures r.zsets == s.zsets && r.clock == s.clock
    ensures r.deadlines - {key} == s.deadlines - {key}
    ensures key !in s.sets ==> key !in r.deadlines
    ensures key in s.sets ==> r.deadlines == s.deadlines
    ensures Wf(s) ==> Wf(r)
  {
    if key in s.sets then s.(sets := s.sets[key := s.sets[key] + {member}])
    else s.(sets := s.sets[key := {member}], deadlines := s.deadlines - {key})
  }

  /** SCARD key */
  function Cardinality(s: StoreState, key: string): nat
  {
    |Members(s, key)|
  }

  /**
   * EXPIRE key seconds, on a set key: a positive timeout sets the deadline
   * `seconds` past the clock, a non-positive one deletes the key, and a
   * missing key is left alone.
   */
  function ExpireState(s: StoreState, key: string, seconds: int): (r: StoreState)
    ensures r.zsets == s.zsets && r.sets - {key} == s.sets - {key} && r.clock == s.clock
    ensures r.deadlines - {key} == s.deadlines - {key}
    ensures key !in s.sets ==> r == s
    ensures key in s.sets && seconds > 0 ==>
              r.sets == s.sets && r.deadlines == s.deadlines[key := s.clock + seconds]
    ensures key in s.sets && seconds <= 0 ==> key !in r.sets && key !in r.deadlines
    ensures Wf(s) ==> Wf(r)
  {
    if key !in s.sets then s
    else if seconds <= 0 then s.(sets := s.sets - {key}, deadlines := s.deadlines - {key})
    else s.(deadlines := s.deadlines[key := s.clock + seconds])
  }

  /** ZADD key score member; the result is the number of members added. */
  function ZAddState(s: StoreState, key: string, score: int, member: string): (r: (StoreState, int))
    ensures ZSetOf(r.0, key) == ZSetOf(s, key)[member := score]
    ensures r.1 == if member in ZSetOf(s, key) then 0 else 1
    ensures r.0.zsets - {key} == s.zsets - {key}
    ensures r.0.sets == s.sets && r.0.deadlines == s.deadlines && r.0.clock == s.clock
    ensures Wf(s) ==> Wf(r.0)
  {
    var z := ZSetOf(s, key);
    (s.(zsets := s.zsets[key := z[member := score]]), if member in z then 0 else 1)
  }

  /** ZREMRANGEBYSCORE key lo hi (both bounds inclusive). */
  function ZRemRangeState(s: StoreState, key: string, lo: int, hi: int): (r: StoreState)
    ensures ZSetOf(r, key) == map m | m in ZSetOf(s, key) && !InRange(ZSetOf(s, key)[m], lo, hi) :: ZSetOf(s, key)[m]
    ensures r.zsets - {key} == s.zsets - {key}
    ensures r.sets == s.sets && r.deadlines == s.deadlines && r.clock == s.clock
    ensures Wf(s) ==> Wf(r)
  {
    if key !in s.zsets then s
    else
      var z := s.zsets[key];
      var rest := map m | m in z && !InRange(z[m], lo, hi) :: z[m];
      if rest == map[] then s.(zsets := s.zsets - {key}) else s.(zsets := s.zsets[key := rest])
  }

  /**
   * The clock moves on by `seconds`; every set key whose deadline has been
   * reached is deleted.
   */
  function AdvanceState(s: StoreState, seconds: nat): (r: StoreState)
    ensures r.clock == s.clock + seconds && r.zsets == s.zsets
    ensures forall k :: Members(r, k) == if k in s.deadlines && s.deadlines[k] <= r.clock then {} else Members(s, k)
    ensures r.deadlines == map k | k in s.deadlines && s.deadlines[k] > r.clock :: s.deadlines[k]
    ensures Wf(s) ==> Wf(r)
  {
    var now := s.clock + seconds;
    var expired := set k | k in s.deadlines && s.deadlines[k] <= now;
    StoreState(s.zsets, s.sets - expired, s.deadlines - expired, now)
  }
}
