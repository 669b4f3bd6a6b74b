/** The sliding-window rate limiter: a sorted set of recent hits for each client, kept in Redis by one script. */
module RateLimiter {
  const RATE_LIMIT: nat := 10
  const WINDOW: int := 10_000

  type Client = nat

  /** Members are random UUIDs: fresh and distinct. */
  type Member = nat

  type Scores = map<Member, int>

  /** A sorted set under a key that expires. */
  datatype Bucket = Bucket(scores: Scores, expiresAt: int)

  datatype RateLimitResult = RateLimitResult(allowed: bool, retryAfterSeconds: int)

  /** How the call of the script goes; a script whose reply is lost has run all the same. */
  datatype Fate = Answered | ReplyLost | Unavailable

  /** A run of the script, which stores the hit if it admits it. */
  datatype Attempt = Attempt(client: Client, at: int, member: Member, admitted: bool)

  // ----- what the script works on -----

  /** ZREMRANGEBYSCORE key -inf (now - window) */
  function Pruned(scores: Scores, now: int): Scores {
    map m | m in scores && scores[m] > now - WINDOW :: scores[m]
  }

  /** What the script finds under the client's key and keeps. */
  function Found(redis: map<Client, Bucket>, c: Client, now: int): Scores {
    Pruned(if c in redis && now <= redis[c].expiresAt then redis[c].scores else map[], now)
  }

  lemma {:induction false} LeastExists(times: set<int>)
    requires times != {}
    ensures exists x :: x in times && forall y | y in times :: x <= y
  {
    if forall x :: x !in times {
      assert false;
    }
    var x :| x in times;
    var rest := times - {x};
    assert times == rest + {x};
    if rest == {} {
      assert forall y | y in times :: x <= y;
    } else {
      LeastExists(rest);
      var y :| y in rest && forall z | z in rest :: y <= z;
      var least := if x < y then x else y;
      assert least in times && forall z | z in times :: least <= z;
    }
  }

  /** The lowest score of a sorted set. */
  function Oldest(scores: Scores): (x: int)
    requires scores != map[]
    ensures x in scores.Values && forall m | m in scores :: x <= scores[m]
  {
    var m :| m in scores;
    assert scores[m] in scores.Values;
    LeastExists(scores.Values);
    var x :| x in scores.Values && forall y | y in scores.Values :: x <= y;
    assert forall m | m in scores :: scores[m] in scores.Values;
    x
  }

  /** Math.max(1, Math.ceil(ms / 1000)) */
  function WholeSeconds(ms: int): int {
    var seconds := (ms + 999) / 1000;
    if seconds < 1 then 1 else seconds
  }

  // ----- what the hits so far amount to -----

  /** The hits of a client that were admitted less than a window before `now`. */
  function Admitted(h: seq<Attempt>, c: Client, now: int): Scores {
    if h == [] then map[]
    else
      var before, last := Admitted(h[..|h| - 1], c, now), h[|h| - 1];
      if last.client == c && last.admitted && last.at > now - WINDOW then before[last.member := last.at] else before
  }

  /** The next hit of a history: no earlier than the others, under a fresh member, admitted below the limit. */
  ghost predicate MayFollow(h: seq<Attempt>, next: Attempt) {
    && (forall i | 0 <= i < |h| :: h[i].at <= next.at && h[i].member != next.member)
    && (next.admitted <==> |Admitted(h, next.client, next.at)| < RATE_LIMIT)
  }

  /** Histories the limiter can have, under a clock that does not go back. */
  ghost predicate Lawful(h: seq<Attempt>) {
    h == [] || (Lawful(h[..|h| - 1]) && MayFollow(h[..|h| - 1], h[|h| - 1]))
  }

  /** From `clock` on, a hit finds exactly the hits admitted in the last window: no member expires too early. */
  ghost predicate Tracks(redis: map<Client, Bucket>, h: seq<Attempt>, clock: int) {
    && (forall i | 0 <= i < |h| :: h[i].at <= clock)
    && (forall c, m | c in redis && m in redis[c].scores :: redis[c].scores[m] + WINDOW <= redis[c].expiresAt)
    && (forall c, t | t >= clock :: Found(redis, c, t) == Admitted(h, c, t))
  }

  class RateLimiter {
    var redis: map<Client, Bucket>
    ghost var history: seq<Attempt>
    ghost var clock: int

    ghost predicate Valid()
      reads this
    {
      Lawful(history) && Tracks(redis, history, clock)
    }

    constructor (now: int)
      ensures Valid() && history == [] && clock == now
    {
      redis := map[];
      history := [];
      clock := now;
    }

    /** The script: whether the hit is admitted, and after how many milliseconds to try again if not. */
    method SlidingWindow(client: Client, member: Member, now: int) returns (admitted: bool, retryAfterMs: int)
      requires Valid() && clock <= now && forall i | 0 <= i < |history| :: history[i].member != member
      modifies this
      ensures Valid() && clock == now && history == old(history) + [Attempt(client, now, member, admitted)]
      ensures admitted <==> |Admitted(old(history), client, now)| < RATE_LIMIT
      ensures admitted ==> retryAfterMs == 0
      ensures !admitted ==> retryAfterMs == Oldest(Admitted(old(history), client, now)) + WINDOW - now
    {
      var scores := Found(redis, client, now);
      if |scores| < RATE_LIMIT {
        admitted, retryAfterMs := true, 0;
        AdmissionKeepsTrack(redis, history, clock, Attempt(client, now, member, true));
        redis := redis[client := Bucket(scores[member := now], now + WINDOW)];
      } else {
        admitted, retryAfterMs := false, Oldest(scores) + WINDOW - now;
        RefusalKeepsTrack(redis, history, clock, Attempt(client, now, member, false));
        redis := redis[client := redis[client].(scores := scores)];
      }
      clock := now;
      history := history + [Attempt(client, now, member, admitted)];
      assert history[..|history| - 1] == old(history);
    }

    /** Redis that does not answer means a refusal. */
    method Hit(client: Client, member: Member, now: int, fate: Fate) returns (result: RateLimitResult)
      requires Valid() && clock <= now && forall i | 0 <= i < |history| :: history[i].member != member
      modifies this
      ensures Valid()
      ensures fate.Unavailable? ==> history == old(history) && redis == old(redis) && clock == old(clock)
      ensures !fate.Answered? ==> result == RateLimitResult(false, 1)
      ensures !fate.Unavailable? ==>
                var admitted := |Admitted(old(history), client, now)| < RATE_LIMIT;
                clock == now && history == old(history) + [Attempt(client, now, member, admitted)]
      ensures fate.Answered? ==>
                var live := Admitted(old(history), client, now);
                result == if |live| < RATE_LIMIT then RateLimitResult(true, 1)
                          else RateLimitResult(false, WholeSeconds(Oldest(live) + WINDOW - now))
    {
      if fate.Unavailable? {
        return RateLimitResult(false, 1);
      }
      var admitted, retryAfterMs := SlidingWindow(client, member, now);
      if fate.ReplyLost? {
        return RateLimitResult(false, 1);
      }
      result := RateLimitResult(admitted, WholeSeconds(retryAfterMs));
    }
  }

  // ----- the set under the key -----

  lemma AdmissionKeepsTrack(redis: map<Client, Bucket>, h: seq<Attempt>, clock: int, next: Attempt)
    requires Tracks(redis, h, clock) && clock <= next.at && next.admitted
    ensures var scores := Found(redis, next.client, next.at)[next.member := next.at];
            Tracks(redis[next.client := Bucket(scores, next.at + WINDOW)], h + [next], next.at)
  {
    var scores := Found(redis, next.client, next.at)[next.member := next.at];
    var after, longer := redis[next.client := Bucket(scores, next.at + WINDOW)], h + [next];
    ScoresAreOfThePast(redis, h, clock, next.client, next.at);
    assert longer[..|h|] == h;
    forall c, t | t >= next.at
      ensures Found(after, c, t) == Admitted(longer, c, t)
    {
      if c == next.client {
        FoundLater(redis, h, clock, c, next.at, t);
      }
    }
  }

  lemma RefusalKeepsTrack(redis: map<Client, Bucket>, h: seq<Attempt>, clock: int, next: Attempt)
    requires Tracks(redis, h, clock) && clock <= next.at && !next.admitted && Found(redis, next.client, next.at) != map[]
    ensures next.client in redis
    ensures var kept := redis[next.client].(scores := Found(redis, next.client, next.at));
            Tracks(redis[next.client := kept], h + [next], next.at)
  {
    var kept := redis[next.client].(scores := Found(redis, next.client, next.at));
    var after, longer := redis[next.client := kept], h + [next];
    assert longer[..|h|] == h;
    forall c, t | t >= next.at
      ensures Found(after, c, t) == Admitted(longer, c, t)
    {
      if c == next.client {
        FoundLater(redis, h, clock, c, next.at, t);
      }
    }
  }

  /** Pruning now and once more later is the same as pruning later only, expiry included. */
  lemma FoundLater(redis: map<Client, Bucket>, h: seq<Attempt>, clock: int, c: Client, now: int, later: int)
    requires Tracks(redis, h, clock) && clock <= now <= later
    ensures Pruned(Found(redis, c, now), later) == Found(redis, c, later) == Admitted(h, c, later)
  {
  }

  lemma ScoresAreOfThePast(redis: map<Client, Bucket>, h: seq<Attempt>, clock: int, c: Client, now: int)
    requires Tracks(redis, h, clock) && clock <= now
    ensures forall m | m in Found(redis, c, now) :: Found(redis, c, now)[m] <= now
  {
    AdmittedOfHistory(h, c, now);
  }

  lemma {:induction false} AdmittedOfHistory(h: seq<Attempt>, c: Client, now: int)
    ensures forall m | m in Admitted(h, c, now) ::
              exists i :: 0 <= i < |h| && h[i].member == m && h[i].at == Admitted(h, c, now)[m] > now - WINDOW
  {
    if h != [] {
      var front := h[..|h| - 1];
      AdmittedOfHistory(front, c, now);
      assert forall i | 0 <= i < |front| :: front[i] == h[i];
    }
  }

  // ----- what the limiter promises -----

  lemma {:induction false} AdmittedLater(h: seq<Attempt>, c: Client, now: int, later: int)
    requires Lawful(h) && now <= later
    ensures Pruned(Admitted(h, c, now), later) == Admitted(h, c, later)
    ensures |Admitted(h, c, later)| <= |Admitted(h, c, now)|
  {
    if h != [] {
      var front, last := h[..|h| - 1], h[|h| - 1];
      AdmittedLater(front, c, now, later);
      AdmittedOfHistory(front, c, now);
      assert last.member !in Admitted(front, c, now);
    }
    PrunedSize(Admitted(h, c, now), later);
  }

  lemma PrunedSize(scores: Scores, now: int)
    ensures |Pruned(scores, now)| <= |scores|
    ensures (exists m :: m in scores && scores[m] <= now - WINDOW) ==> |Pruned(scores, now)| < |scores|
  {
    var kept, all := Pruned(scores, now).Keys, scores.Keys;
    assert |all| == |all - kept| + |kept|;
    if m :| m in scores && scores[m] <= now - WINDOW {
      assert m in all - kept;
    }
  }

  /** The indices of a client's admitted hits at times from `a` up to but not including `b`. */
  ghost function AdmittedWithin(h: seq<Attempt>, c: Client, a: int, b: int): set<nat> {
    set i: nat | i < |h| && h[i].client == c && h[i].admitted && a <= h[i].at < b
  }

  lemma WithinNext(h: seq<Attempt>, c: Client, a: int, b: int)
    requires h != []
    ensures var front, last := h[..|h| - 1], h[|h| - 1];
            var inside := last.client == c && last.admitted && a <= last.at < b;
            AdmittedWithin(h, c, a, b) == AdmittedWithin(front, c, a, b) + if inside then {|h| - 1} else {}
  {
    var front := h[..|h| - 1];
    assert forall i | 0 <= i < |front| :: front[i] == h[i];
  }

  lemma {:induction false} WithinIsLive(h: seq<Attempt>, c: Client, a: int, b: int, now: int)
    requires Lawful(h) && a > now - WINDOW
    ensures |AdmittedWithin(h, c, a, b)| <= |Admitted(h, c, now)|
  {
    if h != [] {
      var front, last := h[..|h| - 1], h[|h| - 1];
      WithinIsLive(front, c, a, b, now);
      WithinNext(h, c, a, b);
      AdmittedOfHistory(front, c, now);
      assert last.member !in Admitted(front, c, now);
    }
  }

  /** Over any run, no window of ten seconds, wherever it starts, contains more than ten admitted hits of a client. */
  lemma {:induction false} AtMostTenInAnyWindow(h: seq<Attempt>, c: Client, start: int)
    requires Lawful(h)
    ensures |AdmittedWithin(h, c, start, start + 10_000)| <= 10
  {
    if h != [] {
      var front, last := h[..|h| - 1], h[|h| - 1];
      AtMostTenInAnyWindow(front, c, start);
      WithinNext(h, c, start, start + WINDOW);
      if last.client == c && last.admitted && start <= last.at < start + WINDOW {
        WithinIsLive(front, c, start, start + WINDOW, last.at);
      }
    }
  }

  lemma {:induction false} WithinIsAllLive(h: seq<Attempt>, c: Client, now: int)
    requires Lawful(h) && forall i | 0 <= i < |h| :: h[i].at <= now
    ensures |AdmittedWithin(h, c, now - WINDOW + 1, now + 1)| == |Admitted(h, c, now)|
  {
    if h != [] {
      var front, last := h[..|h| - 1], h[|h| - 1];
      WithinIsAllLive(front, c, now);
      WithinNext(h, c, now - WINDOW + 1, now + 1);
      AdmittedOfHistory(front, c, now);
      assert last.member !in Admitted(front, c, now);
    }
  }

  /** A hit is admitted exactly if fewer than ten of the client's hits were admitted in the ten seconds before it. */
  lemma AdmittedIffFewerThanTen(h: seq<Attempt>, next: Attempt)
    requires Lawful(h) && MayFollow(h, next)
    ensures next.admitted <==> |AdmittedWithin(h, next.client, next.at - 9_999, next.at + 1)| < 10
  {
    WithinIsAllLive(h, next.client, next.at);
  }

  /** The stored set never grows beyond the limit. */
  lemma {:induction false} AtMostTenStored(h: seq<Attempt>, c: Client, now: int)
    requires Lawful(h) && forall i | 0 <= i < |h| :: h[i].at <= now
    ensures |Admitted(h, c, now)| <= 10
  {
    if h != [] {
      var front, last := h[..|h| - 1], h[|h| - 1];
      AtMostTenStored(front, c, now);
      if last.client == c && last.admitted {
        AdmittedLater(front, c, last.at, now);
      }
    }
  }

  ghost predicate NoneAdmitted(since: seq<Attempt>, c: Client) {
    forall i | 0 <= i < |since| :: since[i].client == c ==> !since[i].admitted
  }

  lemma {:induction false} AdmittedUnlessSince(h: seq<Attempt>, since: seq<Attempt>, c: Client, now: int)
    requires NoneAdmitted(since, c)
    ensures Admitted(h + since, c, now) == Admitted(h, c, now)
  {
    if since == [] {
      assert h + since == h;
    } else {
      AdmittedUnlessSince(h, since[..|since| - 1], c, now);
      assert (h + since)[..|h + since| - 1] == h + since[..|since| - 1];
    }
  }

  /** When the client of a refused hit may come again: once its oldest stored hit has left the window. */
  ghost function RetryAt(h: seq<Attempt>, refused: Attempt): int
    requires MayFollow(h, refused) && !refused.admitted
  {
    Oldest(Admitted(h, refused.client, refused.at)) + WINDOW
  }

  /** A set that is full now is full until its oldest member leaves, and not any longer. */
  lemma FullUntilOldestLeaves(h: seq<Attempt>, refused: Attempt, t: int)
    requires Lawful(h) && MayFollow(h, refused) && !refused.admitted && refused.at <= t
    ensures |Admitted(h, refused.client, t)| < RATE_LIMIT <==> t >= RetryAt(h, refused)
  {
    var live := Admitted(h, refused.client, refused.at);
    AdmittedLater(h, refused.client, refused.at, t);
    AtMostTenStored(h, refused.client, refused.at);
    PrunedSize(live, t);
    var oldest := Oldest(live);
    if t >= RetryAt(h, refused) {
      var m :| m in live && live[m] == oldest;
      assert live[m] <= t - WINDOW;
    } else {
      assert Pruned(live, t) == live;
    }
  }

  /**
   After a refusal the client's next hit is admitted exactly if it comes at or after the announced instant, whatever
   other clients do in between.
   */
  lemma NextHitIsAdmittedAfterRetry(h: seq<Attempt>, refused: Attempt, since: seq<Attempt>, next: Attempt)
    requires Lawful(h + [refused] + since) && MayFollow(h + [refused] + since, next)
    requires Lawful(h) && MayFollow(h, refused) && !refused.admitted
    requires next.client == refused.client && NoneAdmitted(since, refused.client)
    ensures next.admitted <==> next.at >= RetryAt(h, refused)
  {
    assert h + [refused] + since == h + ([refused] + since);
    AdmittedUnlessSince(h, [refused] + since, refused.client, next.at);
    assert (h + [refused] + since)[|h|] == refused;
    FullUntilOldestLeaves(h, refused, next.at);
  }

  /** Until that instant every hit of the client is refused. */
  lemma {:induction false} RefusedUntilRetry(h: seq<Attempt>, refused: Attempt, since: seq<Attempt>)
    requires Lawful(h) && MayFollow(h, refused) && !refused.admitted && Lawful(h + [refused] + since)
    requires forall i | 0 <= i < |since| :: since[i].at < RetryAt(h, refused)
    ensures NoneAdmitted(since, refused.client)
  {
    if since != [] {
      var front, last := since[..|since| - 1], since[|since| - 1];
      var all := h + [refused] + since;
      assert all[..|all| - 1] == h + [refused] + front;
      RefusedUntilRetry(h, refused, front);
      if last.client == refused.client {
        NextHitIsAdmittedAfterRetry(h, refused, front, last);
      }
      assert since == front + [last];
    }
  }

  /** The seconds reported lie between one and ten and never fall short of the wait, nor exceed it by a second. */
  lemma RetryAfterSecondsAreEnough(h: seq<Attempt>, refused: Attempt)
    requires Lawful(h) && MayFollow(h, refused) && !refused.admitted
    ensures var wait := RetryAt(h, refused) - refused.at;
            1 <= WholeSeconds(wait) <= 10 && wait <= 1000 * WholeSeconds(wait) < wait + 1000
  {
    AdmittedOfHistory(h, refused.client, refused.at);
    var live := Admitted(h, refused.client, refused.at);
    var m :| m in live && live[m] == Oldest(live);
  }
}
