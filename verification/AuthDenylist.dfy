/**
 The access token denylist: Redis keys with an expiry, and the `synced` flag with its `generation` counter that
 say whether a missing key may be trusted.
 */
module AuthDenylist {
  import opened RefreshTokens

  /** The two kinds of key, each with the second at which Redis drops it. */
  datatype Redis = Redis(sessions: map<Family, int>, tokens: map<Jti, int>)

  datatype RevokedSession = RevokedSession(sessionId: Family, ttlSeconds: int)

  /** What becomes of a Redis write: done, done with the reply lost, or not done. The last two are errors. */
  datatype Fate = Acknowledged | ReplyLost | NotDone

  /** A Redis write that has been requested and has not finished. */
  datatype Write =
    | SessionWrite(family: Family)
    | LogoutWrite(family: Family, jti: Jti, ttlSeconds: int)

  datatype Lookup = Answer(denied: bool) | OutOfSync | RedisUnavailable

  predicate SessionLive(redis: Redis, f: Family, now: int) {
    f in redis.sessions && now < redis.sessions[f]
  }

  predicate TokenLive(redis: Redis, jti: Jti, now: int) {
    jti in redis.tokens && now < redis.tokens[jti]
  }

  /** SET .. EX on the session key and, for a logout with lifetime left, on the token key. */
  function Perform(redis: Redis, w: Write, now: int): Redis {
    var marked := redis.(sessions := redis.sessions[w.family := now + ACCESS_TOKEN_TTL_SECONDS]);
    if w.LogoutWrite? && w.ttlSeconds > 0 then
      marked.(tokens := marked.tokens[w.jti := now + w.ttlSeconds])
    else
      marked
  }

  /** SET .. EX .. NX for every listed session. */
  function Restore(redis: Redis, ttls: map<Family, int>, now: int): Redis {
    redis.(sessions := map f | f in redis.sessions.Keys + ttls.Keys ::
      if f in ttls && !SessionLive(redis, f, now) then now + ttls[f] else redis.sessions[f])
  }

  /** One SET .. EX .. NX command. */
  function SetIfAbsent(redis: Redis, f: Family, ttlSeconds: int, now: int): Redis {
    if SessionLive(redis, f, now) then redis
    else redis.(sessions := redis.sessions[f := now + ttlSeconds])
  }

  /** A pipeline of SET NX commands for distinct sessions may be run one command at a time. */
  lemma RestoreOneMore(redis: Redis, ttls: map<Family, int>, f: Family, ttlSeconds: int, now: int)
    requires f !in ttls
    ensures SetIfAbsent(Restore(redis, ttls, now), f, ttlSeconds, now) == Restore(redis, ttls[f := ttlSeconds], now)
  {
    var one := Restore(redis, ttls, now);
    assert f in one.sessions <==> f in redis.sessions;
    assert SetIfAbsent(one, f, ttlSeconds, now).sessions == Restore(redis, ttls[f := ttlSeconds], now).sessions;
  }

  function Ttls(sessions: seq<RevokedSession>): map<Family, int> {
    if sessions == [] then map[]
    else
      var last := sessions[|sessions| - 1];
      Ttls(sessions[..|sessions| - 1])[last.sessionId := last.ttlSeconds]
  }

  lemma {:induction false} TtlsKeys(sessions: seq<RevokedSession>)
    ensures forall f :: f in Ttls(sessions) <==> exists i :: 0 <= i < |sessions| && sessions[i].sessionId == f
  {
    if sessions != [] {
      var front := sessions[..|sessions| - 1];
      TtlsKeys(front);
      forall f | f in Ttls(sessions)
        ensures exists i :: 0 <= i < |sessions| && sessions[i].sessionId == f
      {
        if f == sessions[|sessions| - 1].sessionId {
        } else {
          assert f in Ttls(front);
          var i :| 0 <= i < |front| && front[i].sessionId == f;
          assert sessions[i].sessionId == f;
        }
      }
      forall i | 0 <= i < |sessions|
        ensures sessions[i].sessionId in Ttls(sessions)
      {
        if i < |front| {
          assert front[i].sessionId in Ttls(front);
        }
      }
    }
  }

  /** The whole denylist as a value: the two fields of the process and the Redis data. */
  datatype Denylist = Denylist(synced: bool, generation: nat, redis: Redis)

  function MarkedOutOfSync(d: Denylist): Denylist {
    d.(synced := false, generation := d.generation + 1)
  }

  function Written(d: Denylist, w: Write, now: int, fate: Fate): Denylist {
    match fate
    case Acknowledged => d.(redis := Perform(d.redis, w, now))
    case ReplyLost => MarkedOutOfSync(d.(redis := Perform(d.redis, w, now)))
    case NotDone => MarkedOutOfSync(d)
  }

  /** The commands of a pipeline that took effect: all of them unless it failed. */
  function Executed(ttls: map<Family, int>, executed: set<Family>, fails: bool): map<Family, int> {
    map f | f in ttls && (!fails || f in executed) :: ttls[f]
  }

  /** What one more command of the pipeline does to Redis. */
  lemma RestorePrefix(redis: Redis, sessions: seq<RevokedSession>, i: nat, executed: set<Family>, fails: bool, now: int)
    requires i < |sessions|
    requires forall i, j | 0 <= i < j < |sessions| :: sessions[i].sessionId != sessions[j].sessionId
    ensures var s := sessions[i];
            var before := Restore(redis, Executed(Ttls(sessions[..i]), executed, fails), now);
            Restore(redis, Executed(Ttls(sessions[..i + 1]), executed, fails), now)
            == if !fails || s.sessionId in executed then SetIfAbsent(before, s.sessionId, s.ttlSeconds, now) else before
  {
    var s := sessions[i];
    var ttls := Ttls(sessions[..i]);
    assert s.sessionId !in ttls by {
      TtlsKeys(sessions[..i]);
    }
    assert sessions[..i + 1][..i] == sessions[..i];
    assert Ttls(sessions[..i + 1]) == ttls[s.sessionId := s.ttlSeconds];
    var before := Executed(ttls, executed, fails);
    if !fails || s.sessionId in executed {
      RestoreOneMore(redis, before, s.sessionId, s.ttlSeconds, now);
      assert Executed(ttls[s.sessionId := s.ttlSeconds], executed, fails) == before[s.sessionId := s.ttlSeconds];
    } else {
      assert Executed(ttls[s.sessionId := s.ttlSeconds], executed, fails) == before;
    }
  }

  lemma {:induction false} TtlsAt(sessions: seq<RevokedSession>, i: nat)
    requires i < |sessions|
    requires forall i, j | 0 <= i < j < |sessions| :: sessions[i].sessionId != sessions[j].sessionId
    ensures sessions[i].sessionId in Ttls(sessions) && Ttls(sessions)[sessions[i].sessionId] == sessions[i].ttlSeconds
  {
    if i < |sessions| - 1 {
      TtlsAt(sessions[..|sessions| - 1], i);
    }
  }

  /** What the commands that took effect mean for each key: a live one stays, an absent or lapsed one is set. */
  ghost predicate Copies(before: Redis, sessions: seq<RevokedSession>, executed: set<Family>, fails: bool, now: int,
                         after: Redis)
  {
    && after.tokens == before.tokens
    && (forall i | 0 <= i < |sessions| ::
          var s := sessions[i];
          if s.sessionId in before.sessions && now < before.sessions[s.sessionId] then
            s.sessionId in after.sessions && after.sessions[s.sessionId] == before.sessions[s.sessionId]
          else !fails || s.sessionId in executed ==>
            s.sessionId in after.sessions && after.sessions[s.sessionId] == now + s.ttlSeconds)
    && (forall f | f in before.sessions && forall i | 0 <= i < |sessions| :: sessions[i].sessionId != f ::
          f in after.sessions && after.sessions[f] == before.sessions[f])
  }

  lemma RestoreCopies(before: Redis, sessions: seq<RevokedSession>, executed: set<Family>, fails: bool, now: int)
    requires forall i, j | 0 <= i < j < |sessions| :: sessions[i].sessionId != sessions[j].sessionId
    ensures Copies(before, sessions, executed, fails, now, Restore(before, Executed(Ttls(sessions), executed, fails), now))
  {
    TtlsKeys(sessions);
    forall i | 0 <= i < |sessions|
      ensures sessions[i].sessionId in Ttls(sessions) && Ttls(sessions)[sessions[i].sessionId] == sessions[i].ttlSeconds
    {
      TtlsAt(sessions, i);
    }
  }

  /** A restoring pipeline of which only the commands for `executed` took effect before it failed. */
  function RestoreFailed(d: Denylist, ttls: map<Family, int>, executed: set<Family>, now: int): Denylist {
    MarkedOutOfSync(d.(redis := Restore(d.redis, Executed(ttls, executed, true), now)))
  }

  /** The comparison with which a sync ends. */
  function Compared(d: Denylist, since: nat): Denylist {
    if d.generation == since then d.(synced := true) else d
  }

  /** One lookup; `reachable` says whether Redis answers it. */
  function LookedUp(d: Denylist, jti: Jti, f: Family, now: int, reachable: bool): Lookup {
    if !d.synced then OutOfSync
    else if !reachable then RedisUnavailable
    else Answer(TokenLive(d.redis, jti, now) || SessionLive(d.redis, f, now))
  }

  class AccessDenylist {
    var synced: bool
    var generation: nat
    var redis: Redis

    function State(): Denylist
      reads this
    {
      Denylist(synced, generation, redis)
    }

    /**
     What the request for a session key has done since `before`: the key stands for ten minutes unless the write was not
     done, and any error makes the denylist doubt itself.
     */
    predicate Wrote(before: Denylist, f: Family, now: int, fate: Fate)
      reads this
    {
      && redis.sessions == (if fate.NotDone? then before.redis.sessions else before.redis.sessions[f := now + 600])
      && (if fate.Acknowledged? then synced == before.synced && generation == before.generation
          else !synced && generation == before.generation + 1)
    }

    constructor (redis: Redis)
      ensures State() == Denylist(false, 0, redis)
    {
      synced := false;
      generation := 0;
      this.redis := redis;
    }

    /** Also the handler of the connection's `close` event. */
    method MarkOutOfSync()
      modifies this
      ensures State() == MarkedOutOfSync(old(State()))
      ensures !synced && generation == old(generation) + 1 && redis == old(redis)
    {
      synced := false;
      generation := generation + 1;
    }

    method Logout(jti: Jti, expiresAt: int, f: Family, now: int, fate: Fate) returns (failed: bool)
      modifies this
      ensures State() == Written(old(State()), LogoutWrite(f, jti, expiresAt - now), now, fate)
      ensures Wrote(old(State()), f, now, fate)
      ensures redis.tokens == if !fate.NotDone? && now < expiresAt then old(redis.tokens)[jti := expiresAt] else old(redis.tokens)
      ensures failed <==> !fate.Acknowledged?
    {
      var ttlSeconds := expiresAt - now;
      if !fate.NotDone? {
        redis := redis.(sessions := redis.sessions[f := now + ACCESS_TOKEN_TTL_SECONDS]);
        if ttlSeconds > 0 {
          redis := redis.(tokens := redis.tokens[jti := now + ttlSeconds]);
        }
      }
      failed := !fate.Acknowledged?;
      if failed {
        MarkOutOfSync();
      }
    }

    method RevokeSession(f: Family, now: int, fate: Fate) returns (failed: bool)
      modifies this
      ensures State() == Written(old(State()), SessionWrite(f), now, fate)
      ensures Wrote(old(State()), f, now, fate) && redis.tokens == old(redis.tokens)
      ensures failed <==> !fate.Acknowledged?
    {
      if !fate.NotDone? {
        redis := redis.(sessions := redis.sessions[f := now + ACCESS_TOKEN_TTL_SECONDS]);
      }
      failed := !fate.Acknowledged?;
      if failed {
        MarkOutOfSync();
      }
    }

    /** Copies the sessions one SET NX after the other; a failing pipeline executes only the `executed` ones. */
    method RestoreRevokedSessions(sessions: seq<RevokedSession>, since: nat, now: int, executed: set<Family>, fails: bool)
      returns (failed: bool)
      requires forall i, j | 0 <= i < j < |sessions| :: sessions[i].sessionId != sessions[j].sessionId
      requires forall i | 0 <= i < |sessions| :: sessions[i].ttlSeconds > 0
      modifies this
      ensures failed <==> fails && sessions != []
      ensures State() == if failed then RestoreFailed(old(State()), Ttls(sessions), executed, now)
                         else Compared(old(State()).(redis := Restore(old(redis), Ttls(sessions), now)), since)
      ensures failed ==> !synced && generation == old(generation) + 1
      ensures !failed ==> generation == old(generation) && (synced <==> old(synced) || old(generation) == since)
      ensures Copies(old(redis), sessions, executed, fails, now, redis)
    {
      failed := false;
      if |sessions| > 0 {
        for i := 0 to |sessions|
          invariant synced == old(synced) && generation == old(generation)
          invariant redis == Restore(old(redis), Executed(Ttls(sessions[..i]), executed, fails), now)
        {
          var s := sessions[i];
          RestorePrefix(old(redis), sessions, i, executed, fails, now);
          if !fails || s.sessionId in executed {
            if !SessionLive(redis, s.sessionId, now) {
              redis := redis.(sessions := redis.sessions[s.sessionId := now + s.ttlSeconds]);
            }
          }
        }
        assert sessions[..|sessions|] == sessions;
        RestoreCopies(old(redis), sessions, executed, fails, now);
        if fails {
          MarkOutOfSync();
          return true;
        }
        assert Executed(Ttls(sessions), executed, fails) == Ttls(sessions);
      } else {
        assert Restore(redis, map[], now) == redis;
      }
      if generation == since {
        synced := true;
      }
    }

    method IsDenied(jti: Jti, f: Family, now: int, reachable: bool) returns (answer: Lookup)
      ensures answer == LookedUp(State(), jti, f, now, reachable)
      ensures answer == OutOfSync <==> !synced
      ensures answer == RedisUnavailable <==> synced && !reachable
      ensures answer == Answer(true) <==>
                && synced && reachable
                && ((jti in redis.tokens && now < redis.tokens[jti]) || (f in redis.sessions && now < redis.sessions[f]))
    {
      if !synced {
        return OutOfSync;
      }
      if !reachable {
        return RedisUnavailable;
      }
      answer := Answer(TokenLive(redis, jti, now) || SessionLive(redis, f, now));
    }
  }
}
