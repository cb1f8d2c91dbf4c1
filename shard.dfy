/**
 * Time, minute shards and the poll window of redis_time_wheel.go.
 *
 * Time is whole seconds since the Unix epoch plus the nanoseconds within the
 * second, as Go's time.Time keeps it. The helper util.GetTimeMinuteStr is not
 * part of this model; it is taken as an arbitrary formatting function of the
 * minute (floor of the Unix second by 60), passed in as a parameter.
 */
module ShardKeys {
  import opened Wrappers
  import opened Keyspace

  type Nanos = n: int | 0 <= n < 1_000_000_000

  datatype Instant = Instant(unix: int, nsec: Nanos)

  /** The token util.GetTimeMinuteStr gives a minute, by the minute's index since the epoch. */
  type MinuteFormat = int -> string

  /** The minute an instant falls in (Dafny's `/` floors here, also before 1970). */
  function MinuteOf(t: Instant): int
  {
    t.unix / 60
  }

  function GetTimeMinuteStr(format: MinuteFormat, t: Instant): string
  {
    format(MinuteOf(t))
  }

  /** util.GetTimeSecond: the instant truncated to its whole second. */
  function GetTimeSecond(t: Instant): Instant
  {
    Instant(t.unix, 0)
  }

  /** time.Time.Unix */
  function Unix(t: Instant): int
  {
    t.unix
  }

  /** time.Time.Add(time.Second) */
  function AddSecond(t: Instant): Instant
  {
    Instant(t.unix + 1, t.nsec)
  }

  const TASK_KEY_PREFIX := "xiaoxu_timewheel_task_"
  const DELETE_SET_KEY_PREFIX := "xiaoxu_timewheel_delset_"

  /**
   * `prefix{token}`, the shape fmt.Sprintf builds for both shard keys: the
   * prefix, an opening brace, the token and a closing brace, so that the
   * token can be read back from the key.
   */
  function ShardKey(prefix: string, token: string): (k: string)
    ensures |k| == |prefix| + |token| + 2
    ensures k[..|prefix|] == prefix && k[|prefix|] == '{' && k[|k| - 1] == '}'
    ensures k[|prefix| + 1..|k| - 1] == token
  {
    prefix + "{" + token + "}"
  }

  /** getMinuteSlice: the sorted-set key of the minute shard holding `t`. */
  function GetMinuteSlice(format: MinuteFormat, t: Instant): (k: string)
    ensures |k| == |TASK_KEY_PREFIX| + |format(MinuteOf(t))| + 2
    ensures k[..|TASK_KEY_PREFIX|] == TASK_KEY_PREFIX && k[|TASK_KEY_PREFIX|] == '{' && k[|k| - 1] == '}'
    ensures k[|TASK_KEY_PREFIX| + 1..|k| - 1] == format(MinuteOf(t))
  {
    ShardKey(TASK_KEY_PREFIX, GetTimeMinuteStr(format, t))
  }

  /** getDeleteSetKey: the tombstone-set key of the minute shard holding `t`. */
  function GetDeleteSetKey(format: MinuteFormat, t: Instant): (k: string)
    ensures |k| == |DELETE_SET_KEY_PREFIX| + |format(MinuteOf(t))| + 2
    ensures k[..|DELETE_SET_KEY_PREFIX|] == DELETE_SET_KEY_PREFIX && k[|DELETE_SET_KEY_PREFIX|] == '{' && k[|k| - 1] == '}'
    ensures k[|DELETE_SET_KEY_PREFIX| + 1..|k| - 1] == format(MinuteOf(t))
  {
    ShardKey(DELETE_SET_KEY_PREFIX, GetTimeMinuteStr(format, t))
  }

  // ---------------------------------------------------------------------
  // Redis Cluster hash tags
  // ---------------------------------------------------------------------

  /** The first position of `c` in `s`, if any. */
  function IndexOf(s: string, c: char): (r: Option<nat>)
    ensures r.None? <==> c !in s
    ensures r.Some? ==> r.value < |s| && s[r.value] == c && c !in s[..r.value]
  {
    if s == [] then None
    else if s[0] == c then Some(0)
    else match IndexOf(s[1..], c)
      case None => None
      case Some(i) => assert s[..i + 1] == [s[0]] + s[1..][..i]; Some(i + 1)
  }

  /** The tag given what follows the first `{`: the text up to the next `}`, if not empty. */
  function TagAfterBrace(after: string): Option<string>
  {
    match IndexOf(after, '}')
    case None => None
    case Some(j) => if j == 0 then None else Some(after[..j])
  }

  /**
   * The hash tag of a key, as the Redis Cluster specification defines it: when
   * the key has a `{`, a `}` after it, and at least one character between the
   * first `{` and the first `}` after it, only that text is hashed to choose the
   * key's slot. Keys with the same tag are stored on the same node.
   */
  function HashTag(key: string): Option<string>
  {
    match IndexOf(key, '{')
    case None => None
    case Some(i) => TagAfterBrace(key[i + 1..])
  }

  lemma {:induction false} IndexOfAfter(a: string, b: string, c: char)
    requires c !in a
    ensures IndexOf(a + b, c) == match IndexOf(b, c) case None => None case Some(i) => Some(|a| + i)
  {
    if a != [] {
      assert (a + b)[1..] == a[1..] + b;
      IndexOfAfter(a[1..], b, c);
    } else {
      assert a + b == b;
    }
  }

  lemma HashTagOfShardKey(prefix: string, token: string)
    requires '{' !in prefix
    ensures HashTag(ShardKey(prefix, token)) == TagAfterBrace(token + "}")
  {
    var key := ShardKey(prefix, token);
    assert key == prefix + ("{" + token + "}");
    IndexOfAfter(prefix, "{" + token + "}", '{');
    assert key[|prefix| + 1..] == token + "}";
  }

  /**
   * Both keys of a shard carry the same hash tag, so Redis Cluster stores them
   * on one node and a script may touch both. When the minute token is not
   * empty and has no `}`, that tag is the token itself.
   */
  lemma ShardKeysShareHashTag(format: MinuteFormat, t: Instant)
    ensures HashTag(GetMinuteSlice(format, t)) == HashTag(GetDeleteSetKey(format, t))
    ensures var token := GetTimeMinuteStr(format, t);
            token != "" && '}' !in token ==> HashTag(GetMinuteSlice(format, t)) == Some(token)
  {
    var token := GetTimeMinuteStr(format, t);
    assert '{' !in TASK_KEY_PREFIX;
    assert '{' !in DELETE_SET_KEY_PREFIX;
    HashTagOfShardKey(TASK_KEY_PREFIX, token);
    HashTagOfShardKey(DELETE_SET_KEY_PREFIX, token);
    if token != "" && '}' !in token {
      IndexOfAfter(token, "}", '}');
      assert (token + "}")[..|token|] == token;
    }
  }

  /** No sorted-set key equals any tombstone-set key, whatever the instants. */
  lemma ShardKeysNeverCollide(format: MinuteFormat, t1: Instant, t2: Instant)
    ensures GetMinuteSlice(format, t1) != GetDeleteSetKey(format, t2)
  {
    var k1, k2 := GetMinuteSlice(format, t1), GetDeleteSetKey(format, t2);
    assert k1[17] == TASK_KEY_PREFIX[17] == 't';
    assert k2[17] == DELETE_SET_KEY_PREFIX[17] == 'd';
  }

  lemma ShardKeyInjective(prefix: string, a: string, b: string)
    ensures ShardKey(prefix, a) == ShardKey(prefix, b) <==> a == b
  {
    if ShardKey(prefix, a) == ShardKey(prefix, b) {
      var k := ShardKey(prefix, a);
      assert k[|prefix| + 1..|k| - 1] == a;
      assert ShardKey(prefix, b)[|prefix| + 1..|k| - 1] == b;
    }
  }

  /**
   * Each shard key depends on the instant only through the minute token: two
   * instants get the same keys exactly when their tokens agree.
   */
  lemma ShardKeysFollowMinuteToken(format: MinuteFormat, t1: Instant, t2: Instant)
    ensures GetMinuteSlice(format, t1) == GetMinuteSlice(format, t2)
            <==> GetTimeMinuteStr(format, t1) == GetTimeMinuteStr(format, t2)
    ensures GetDeleteSetKey(format, t1) == GetDeleteSetKey(format, t2)
            <==> GetTimeMinuteStr(format, t1) == GetTimeMinuteStr(format, t2)
  {
    ShardKeyInjective(TASK_KEY_PREFIX, GetTimeMinuteStr(format, t1), GetTimeMinuteStr(format, t2));
    ShardKeyInjective(DELETE_SET_KEY_PREFIX, GetTimeMinuteStr(format, t1), GetTimeMinuteStr(format, t2));
  }

  ghost predicate InjectiveFormat(format: MinuteFormat)
  {
    forall a, b :: format(a) == format(b) ==> a == b
  }

  /** With a format that tells minutes apart, instants share a shard exactly when they share a minute. */
  lemma ShardPerMinute(format: MinuteFormat, t1: Instant, t2: Instant)
    requires InjectiveFormat(format)
    ensures GetMinuteSlice(format, t1) == GetMinuteSlice(format, t2) <==> MinuteOf(t1) == MinuteOf(t2)
  {
    ShardKeysFollowMinuteToken(format, t1, t2);
  }

  // ---------------------------------------------------------------------
  // The poll window
  // ---------------------------------------------------------------------

  datatype Window = Window(score1: int, score2: int)

  /** The scores getExecutableTasks asks to claim at `now`. */
  function PollWindow(now: Instant): (w: Window)
    ensures w.score1 == now.unix && w.score2 == now.unix + 1
  {
    var nowSecond := GetTimeSecond(now);
    Window(Unix(nowSecond), Unix(AddSecond(nowSecond)))
  }

  /**
   * The window is inclusive at both ends: the tick at `now` claims the
   * entries due in the current second and those due in the next one.
   */
  lemma PollWindowCovers(now: Instant, score: int)
    ensures var w := PollWindow(now);
            w.score2 == w.score1 + 1 && w.score1 == now.unix
    ensures var w := PollWindow(now);
            InRange(score, w.score1, w.score2) <==> score == now.unix || score == now.unix + 1
  {
  }

  /**
   * No early claim across a minute: in the last second of a minute the next
   * second lies in the next minute, whose entries live under other keys when
   * the format tells minutes apart, so the tick at that second does not claim
   * them.
   */
  lemma NoEarlyClaimAcrossMinute(format: MinuteFormat, now: Instant, due: Instant)
    requires InjectiveFormat(format)
    requires now.unix % 60 == 59 && due.unix == now.unix + 1
    ensures GetMinuteSlice(format, due) != GetMinuteSlice(format, now)
  {
    ShardPerMinute(format, due, now);
    assert MinuteOf(due) == MinuteOf(now) + 1;
  }
}
