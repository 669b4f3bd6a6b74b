/**
 The background work around refresh tokens: reading the recently revoked families out of Postgres, copying them
 into the denylist, and deleting families that have expired, batch by batch.
 */
module AuthMaintenance {
  import opened Options
  import opened BatchDelete
  import opened RefreshTokens
  import opened AuthDenylist

  const CLEANUP_BATCH: nat := 1000

  // ----- the revoked families of the last ten minutes -----

  predicate RecentlyRevokedRow(row: Row, now: int) {
    row.revokedAt.Some? && row.revokedAt.value > now - ACCESS_TOKEN_TTL_SECONDS
  }

  lemma {:induction false} LatestExists(times: set<int>)
    requires times != {}
    ensures exists m :: m in times && forall x | x in times :: x <= m
  {
    if forall x :: x !in times {
      assert false;
    }
    var x :| x in times;
    if times == {x} {
      assert x in times && forall y | y in times :: y <= x;
    } else {
      var rest := times - {x};
      assert times == rest + {x};
      LatestExists(rest);
      var m :| m in rest && forall y | y in rest :: y <= m;
      var top := if m < x then x else m;
      assert forall y | y in times :: y in rest || y == x;
      assert top in times && forall y | y in times :: y <= top;
    }
  }

  /** max(..) of SQL. */
  function Latest(times: set<int>): (m: int)
    requires times != {}
    ensures m in times && forall x | x in times :: x <= m
  {
    LatestExists(times);
    var m :| m in times && forall x | x in times :: x <= m;
    m
  }

  function RecentRevocations(rows: Table, f: Family, now: int): set<int> {
    set t | t in rows && rows[t].family == f && RecentlyRevokedRow(rows[t], now) :: rows[t].revokedAt.value
  }

  function RecentFamilies(rows: Table, now: int): set<Family> {
    set t | t in rows && RecentlyRevokedRow(rows[t], now) :: rows[t].family
  }

  lemma RecentFamilyHasRevocation(rows: Table, f: Family, now: int)
    requires f in RecentFamilies(rows, now)
    ensures RecentRevocations(rows, f, now) != {}
  {
    var t :| t in rows && RecentlyRevokedRow(rows[t], now) && rows[t].family == f;
    assert rows[t].revokedAt.value in RecentRevocations(rows, f, now);
  }

  /** The families the query returns, each with the seconds its Redis key has to live. */
  function RecentlyRevoked(rows: Table, now: int): map<Family, int> {
    map f | f in RecentFamilies(rows, now) ::
      RecentFamilyHasRevocation(rows, f, now);
      Latest(RecentRevocations(rows, f, now)) + ACCESS_TOKEN_TTL_SECONDS - now
  }

  /** The key of a listed family lives until ten minutes after its last revocation. */
  lemma RecentlyRevokedTtl(rows: Table, now: int, t: Token)
    requires t in rows && RecentlyRevokedRow(rows[t], now)
    ensures var f := rows[t].family;
            f in RecentlyRevoked(rows, now)
            && now + RecentlyRevoked(rows, now)[f] >= rows[t].revokedAt.value + ACCESS_TOKEN_TTL_SECONDS
  {
    var f := rows[t].family;
    assert rows[t].revokedAt.value in RecentRevocations(rows, f, now);
  }

  /** Every listed lifetime is that of one of the family's rows, and positive, as SET EX demands. */
  lemma RecentlyRevokedWitness(rows: Table, now: int, f: Family) returns (t: Token)
    requires f in RecentlyRevoked(rows, now)
    ensures t in rows && rows[t].family == f && RecentlyRevokedRow(rows[t], now)
    ensures now + RecentlyRevoked(rows, now)[f] == rows[t].revokedAt.value + ACCESS_TOKEN_TTL_SECONDS
    ensures RecentlyRevoked(rows, now)[f] > 0
  {
    RecentFamilyHasRevocation(rows, f, now);
    var m := Latest(RecentRevocations(rows, f, now));
    t :| t in rows && rows[t].family == f && RecentlyRevokedRow(rows[t], now) && rows[t].revokedAt.value == m;
  }

  lemma TtlsOfOneMore(sessions: seq<RevokedSession>, s: RevokedSession)
    ensures Ttls(sessions + [s]) == Ttls(sessions)[s.sessionId := s.ttlSeconds]
  {
    assert (sessions + [s])[..|sessions|] == sessions;
  }

  lemma OneListedMore(ttls: map<Family, int>, left: set<Family>, f: Family)
    requires f in left && left <= ttls.Keys
    ensures (ttls - left)[f := ttls[f]] == ttls - (left - {f})
  {
  }

  /** Reads the families in an order of the database's choosing. */
  method FindRecentlyRevokedSessions(db: Database, now: int) returns (sessions: seq<RevokedSession>)
    ensures Ttls(sessions) == RecentlyRevoked(db.rows, now)
    ensures forall i, j | 0 <= i < j < |sessions| :: sessions[i].sessionId != sessions[j].sessionId
    ensures forall i | 0 <= i < |sessions| :: sessions[i].ttlSeconds > 0
  {
    var ttls := RecentlyRevoked(db.rows, now);
    var left := ttls.Keys;
    sessions := [];
    while left != {}
      invariant left <= ttls.Keys
      invariant Ttls(sessions) == ttls - left
      invariant forall i | 0 <= i < |sessions| :: sessions[i].sessionId in ttls && sessions[i].sessionId !in left
      invariant forall i, j | 0 <= i < j < |sessions| :: sessions[i].sessionId != sessions[j].sessionId
      invariant forall i | 0 <= i < |sessions| :: sessions[i].ttlSeconds > 0
      decreases left
    {
      var f :| f in left;
      var s := RevokedSession(f, ttls[f]);
      ghost var t := RecentlyRevokedWitness(db.rows, now, f);
      TtlsOfOneMore(sessions, s);
      sessions := sessions + [s];
      OneListedMore(ttls, left, f);
      left := left - {f};
    }
    assert ttls - {} == ttls;
  }

  // ----- cleanup -----

  /** A batch leaves exactly the other removable rows to the following batches. */
  lemma AfterBatch(rows: Table, now: int, batch: set<Token>)
    requires batch <= Removable(rows, now)
    ensures Removable(rows - batch, now) == Removable(rows, now) - batch
    ensures (rows - batch) - Removable(rows - batch, now) == rows - Removable(rows, now)
    ensures |Removable(rows - batch, now)| == |Removable(rows, now)| - |batch|
    ensures |Removable(rows - batch, now)| == 0 ==> Removable(rows - batch, now) == {}
  {
    RemovableAfterDelete(rows, now, batch);
    var removable := Removable(rows, now);
    assert (rows - batch) - (removable - batch) == rows - removable;
    assert |removable| == |removable - batch| + |batch|;
  }

  /**
   Batch by batch until a batch comes back short. The loop ends for every positive batch size and leaves the table
   that deleting all expired families at once would leave.
   */
  method CleanupExpiredRefreshTokens(db: Database, now: int, batchSize: nat) returns (deleted: nat)
    requires batchSize >= 1
    modifies db
    ensures db.rows == old(db.rows) - Removable(old(db.rows), now)
    ensures deleted == |Removable(old(db.rows), now)|
    ensures forall t | t in old(db.rows) ::
              if forall u | u in old(db.rows) && old(db.rows)[u].family == old(db.rows)[t].family :: old(db.rows)[u].expiresAt < now
              then t !in db.rows else t in db.rows && db.rows[t] == old(db.rows)[t]
  {
    deleted := 0;
    while true
      invariant db.rows - Removable(db.rows, now) == old(db.rows) - Removable(old(db.rows), now)
      invariant deleted + |Removable(db.rows, now)| == |Removable(old(db.rows), now)|
      decreases |Removable(db.rows, now)|
    {
      BatchExists(Removable(db.rows, now), batchSize);
      var batch :| Batch(Removable(db.rows, now), batchSize, batch);
      AfterBatch(db.rows, now, batch);
      db.rows := db.rows - batch;
      var affected := |batch|;
      deleted := deleted + affected;
      if affected < batchSize {
        assert db.rows - {} == db.rows;
        return;
      }
    }
  }

  /** The family's key stands until the given second, or is one that stood before and has been left alone. */
  predicate HasKey(before: Redis, after: Redis, now: int, f: Family, until: int) {
    && f in after.sessions
    && (after.sessions[f] >= until || (f in before.sessions && now < before.sessions[f] == after.sessions[f]))
  }

  // ----- the service -----

  datatype Task = RevokedSessionsSync | RefreshTokensCleanup

  /** What `launch` hands to its caller: the promise of a run, or one that is already fulfilled. */
  datatype Launched = Begun(promise: nat) | Joined(promise: nat) | Nothing

  class AuthMaintenance {
    const db: Database
    const denylist: AccessDenylist
    /** The promise of the run of each running task. */
    var running: map<Task, nat>
    var stopped: bool

    constructor (db: Database, denylist: AccessDenylist)
      ensures this.db == db && this.denylist == denylist && running == map[] && !stopped
    {
      this.db := db;
      this.denylist := denylist;
      running := map[];
      stopped := false;
    }

    /** A running task is not started a second time but joined, and nothing starts after shutdown. */
    method Launch(task: Task, promise: nat) returns (launched: Launched)
      modifies this
      ensures stopped == old(stopped)
      ensures launched == if task in old(running) then Joined(old(running)[task])
                          else if old(stopped) then Nothing
                          else Begun(promise)
      ensures running == if launched.Begun? then old(running)[task := promise] else old(running)
    {
      if task in running {
        return Joined(running[task]);
      }
      if stopped {
        return Nothing;
      }
      running := running[task := promise];
      launched := Begun(promise);
    }

    /** A run ends, well or badly; the next launch may start the task again. */
    method Settle(task: Task, failed: bool) returns (warned: bool)
      modifies this
      ensures running == old(running) - {task} && stopped == old(stopped)
      ensures warned <==> failed && !old(stopped)
    {
      warned := failed && !stopped;
      running := running - {task};
    }

    /** Shutdown: the promises that it waits for. */
    method Stop() returns (awaited: set<nat>)
      modifies this
      ensures stopped && running == old(running) && awaited == running.Values
    {
      stopped := true;
      awaited := running.Values;
    }

    /** A sync nobody interferes with: unless the pipeline fails, the denylist ends in sync and holds every family. */
    method SyncRevokedSessions(now: int, executed: set<Family>, fails: bool) returns (failed: bool)
      modifies denylist
      ensures failed <==> fails && RecentlyRevoked(db.rows, now) != map[]
      ensures failed ==>
        denylist.State() == RestoreFailed(old(denylist.State()), RecentlyRevoked(db.rows, now), executed, now)
      ensures !failed ==> denylist.synced && denylist.generation == old(denylist.generation)
      ensures !failed ==> denylist.redis == Restore(old(denylist.redis), RecentlyRevoked(db.rows, now), now)
      ensures failed ==> !denylist.synced && denylist.generation == old(denylist.generation) + 1
      ensures denylist.redis.tokens == old(denylist.redis.tokens)
      ensures !failed ==>
                forall t | t in db.rows && db.rows[t].revokedAt.Some? && db.rows[t].revokedAt.value > now - 600 ::
                  HasKey(old(denylist.redis), denylist.redis, now, db.rows[t].family, db.rows[t].revokedAt.value + 600)
    {
      forall t | t in db.rows && db.rows[t].revokedAt.Some? && db.rows[t].revokedAt.value > now - 600
        ensures RecentlyRevokedRow(db.rows[t], now)
        ensures db.rows[t].family in RecentlyRevoked(db.rows, now)
        ensures now + RecentlyRevoked(db.rows, now)[db.rows[t].family] >= db.rows[t].revokedAt.value + 600
      {
        RecentlyRevokedTtl(db.rows, now, t);
      }
      var since := denylist.generation;
      var sessions := FindRecentlyRevokedSessions(db, now);
      if sessions != [] {
        assert sessions[|sessions| - 1].sessionId in Ttls(sessions);
      }
      failed := denylist.RestoreRevokedSessions(sessions, since, now, executed, fails);
    }
  }
}
