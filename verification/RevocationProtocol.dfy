/**
 Refresh token families in Postgres and their revocations in Redis, over every interleaving of requests, background
 syncs, cleanup batches, lost connections, lost data, failed writes and restarts of the process.

 A run is a sequence of actions. All choices of the environment (fresh random values, which rows a revoking UPDATE
 misses, what becomes of a Redis write) are part of the action, so that `Apply` is a function.
 */
module RevocationProtocol {
  import opened Options
  import opened RefreshTokens
  import opened AuthDenylist
  import opened AuthMaintenance
  import opened BatchDelete

  /** When and for whom a refresh token was issued. */
  datatype Mint = Mint(userId: nat, family: Family, at: int)

  /** An access token, and the refresh token that was handed out with it. */
  datatype Access = Access(family: Family, iat: int, paired: Token)

  /** The first revocation of a family, and one of the rows it marked. */
  datatype Revocation = Revocation(at: int, mark: Token)

  datatype Sync = Started(since: nat) | Read(since: nat, ttls: map<Family, int>) | Copied(since: nat)

  /** The two stores and the process, followed by the history of the run so far. */
  datatype State = State(
    now: int,
    rows: Table,
    deny: Denylist,
    pending: map<nat, Write>,
    syncs: map<nat, Sync>,
    families: set<Family>,
    minted: map<Token, Mint>,
    exchanged: map<Token, Token>,
    issued: map<Jti, Access>,
    revoked: map<Family, Revocation>,
    settled: set<Family>
  )

  datatype Action =
    | Tick(seconds: nat)
    | Login(userId: nat, family: Family, token: Token, jti: Jti)
    | Refresh(presented: Token, next: Token, jti: Jti, marked: set<Token>, op: nat)
    | Logout(jti: Jti, marked: set<Token>, op: nat)
    | FinishWrite(op: nat, fate: Fate)
    | BeginSync(id: nat)
    | ReadRevoked(id: nat)
    | CopyRevoked(id: nat)
    | CopyFails(id: nat, executed: set<Family>)
    | CompareGeneration(id: nat)
    | AbandonSync(id: nat)
    | CloseRedis(sessionsKept: set<Family>, tokensKept: set<Jti>)
    | Cleanup(batch: set<Token>)
    | Restart

  function Initial(now: int): State {
    State(now, map[], Denylist(false, 0, Redis(map[], map[])), map[], map[], {}, map[], map[], map[], map[], {})
  }

  /** A revoking UPDATE may miss unrevoked rows that a concurrent refresh inserted, but not all rows there are. */
  predicate MayMark(rows: Table, f: Family, marked: set<Token>) {
    marked <= Unrevoked(rows, f) && (Unrevoked(rows, f) != {} ==> marked != {})
  }

  ghost predicate Enabled(s: State, a: Action) {
    match a
    case Tick(_) => true
    case Login(_, family, token, jti) =>
      family !in s.families && token !in s.minted && jti !in s.issued
    case Refresh(presented, next, jti, marked, op) =>
      && next !in s.minted && jti !in s.issued && op !in s.pending
      && (RefreshOutcome(s.rows, s.now, presented, next).Reused? ==>
            presented in marked && MayMark(s.rows, s.rows[presented].family, marked))
    case Logout(jti, marked, op) =>
      jti in s.issued && op !in s.pending && MayMark(s.rows, s.issued[jti].family, marked)
    case FinishWrite(op, _) => op in s.pending
    case BeginSync(id) => id !in s.syncs
    case ReadRevoked(id) => id in s.syncs && s.syncs[id].Started?
    case CopyRevoked(id) => id in s.syncs && s.syncs[id].Read?
    case CopyFails(id, _) => id in s.syncs && s.syncs[id].Read?
    case CompareGeneration(id) => id in s.syncs && s.syncs[id].Copied?
    case AbandonSync(id) => id in s.syncs && s.syncs[id].Started?
    case CloseRedis(_, _) => true
    case Cleanup(batch) => Batch(Removable(s.rows, s.now), CLEANUP_BATCH, batch)
    case Restart => true
  }

  /** The revoking UPDATE and the request for the Redis write that follows it. */
  ghost function Revoking(s: State, f: Family, marked: set<Token>, op: nat, w: Write): State {
    s.(rows := Revoke(s.rows, s.now, marked),
       revoked := if f in s.revoked || marked == {} then s.revoked
                  else s.revoked[f := Revocation(s.now, var t :| t in marked; t)],
       pending := s.pending[op := w])
  }

  ghost function Apply(s: State, a: Action): State
    requires Enabled(s, a)
  {
    match a
    case Tick(seconds) => s.(now := s.now + seconds)
    case Login(userId, family, token, jti) =>
      s.(rows := s.rows[token := FreshRow(userId, family, s.now)],
         families := s.families + {family},
         minted := s.minted[token := Mint(userId, family, s.now)],
         issued := s.issued[jti := Access(family, s.now, token)])
    case Refresh(presented, next, jti, marked, op) =>
      (match RefreshOutcome(s.rows, s.now, presented, next)
       case Rotated(userId, family, _) =>
         s.(rows := Rotate(s.rows, s.now, presented, next),
            minted := s.minted[next := Mint(userId, family, s.now)],
            exchanged := s.exchanged[presented := next],
            issued := s.issued[jti := Access(family, s.now, next)])
       case Reused(_, family) => Revoking(s, family, marked, op, SessionWrite(family))
       case Invalid => s)
    case Logout(jti, marked, op) =>
      var access := s.issued[jti];
      Revoking(s, access.family, marked, op,
               LogoutWrite(access.family, jti, access.iat + ACCESS_TOKEN_TTL_SECONDS - s.now))
    case FinishWrite(op, fate) =>
      s.(deny := Written(s.deny, s.pending[op], s.now, fate),
         pending := s.pending - {op},
         settled := s.settled + {s.pending[op].family})
    case BeginSync(id) => s.(syncs := s.syncs[id := Started(s.deny.generation)])
    case ReadRevoked(id) => s.(syncs := s.syncs[id := Read(s.syncs[id].since, RecentlyRevoked(s.rows, s.now))])
    case CopyRevoked(id) =>
      s.(deny := s.deny.(redis := Restore(s.deny.redis, s.syncs[id].ttls, s.now)),
         syncs := s.syncs[id := Copied(s.syncs[id].since)])
    case CopyFails(id, executed) =>
      s.(deny := RestoreFailed(s.deny, s.syncs[id].ttls, executed, s.now), syncs := s.syncs - {id})
    case CompareGeneration(id) =>
      s.(deny := Compared(s.deny, s.syncs[id].since), syncs := s.syncs - {id})
    case AbandonSync(id) => s.(syncs := s.syncs - {id})
    case CloseRedis(sessionsKept, tokensKept) =>
      var redis := s.deny.redis;
      s.(deny := MarkedOutOfSync(s.deny.(redis := Redis(
        map f | f in redis.sessions && f in sessionsKept :: redis.sessions[f],
        map j | j in redis.tokens && j in tokensKept :: redis.tokens[j]))))
    case Cleanup(batch) => s.(rows := s.rows - batch)
    case Restart =>
      s.(deny := Denylist(false, 0, s.deny.redis),
         pending := map[],
         syncs := map[],
         settled := s.settled + set op | op in s.pending :: s.pending[op].family)
  }

  ghost predicate Executes(s: State, actions: seq<Action>, t: State)
    decreases |actions|
  {
    if actions == [] then s == t
    else Enabled(s, actions[0]) && Executes(Apply(s, actions[0]), actions[1..], t)
  }

  ghost predicate Later(s: State, t: State) {
    exists actions :: Executes(s, actions, t)
  }

  ghost predicate Reachable(s: State) {
    exists start :: Later(Initial(start), s)
  }

  // ----- the invariant -----

  /** Rows are what the history says was issued; a missing row is long expired, and so is its whole family. */
  ghost predicate MintInv(s: State) {
    && (forall t | t in s.rows ::
          t in s.minted && s.rows[t].userId == s.minted[t].userId && s.rows[t].family == s.minted[t].family
          && s.rows[t].expiresAt == s.minted[t].at + REFRESH_TOKEN_TTL_SECONDS)
    && (forall t | t in s.minted ::
          s.minted[t].family in s.families && s.minted[t].at <= s.now
          && (t !in s.rows ==> s.minted[t].at + REFRESH_TOKEN_TTL_SECONDS < s.now
                               && FamilyExpired(s.rows, s.minted[t].family, s.now)))
    && (forall j | j in s.issued ::
          var a := s.issued[j];
          a.paired in s.minted && s.minted[a.paired].family == a.family && s.minted[a.paired].at == a.iat)
  }

  /** Rotation spends one token and mints one: a family is a chain with a single unspent end. */
  ghost predicate ChainInv(s: State) {
    && s.exchanged.Keys <= s.minted.Keys
    && (forall t | t in s.rows :: s.rows[t].usedAt.Some? <==> t in s.exchanged)
    && (forall t, u | t in s.minted && u in s.minted && t !in s.exchanged && u !in s.exchanged
          && s.minted[t].family == s.minted[u].family :: t == u)
  }

  /** Revoked rows belong to families that are known to be revoked, since no later than the row says. */
  ghost predicate RowsRevoked(s: State) {
    && s.revoked.Keys <= s.families
    && (forall t | t in s.rows && s.rows[t].revokedAt.Some? ::
          s.rows[t].family in s.revoked
          && s.revoked[s.rows[t].family].at <= s.rows[t].revokedAt.value <= s.now)
  }

  /** A family's first revocation is still visible in the table, or the family cannot rotate for lack of time. */
  ghost predicate RevocationVisible(s: State) {
    forall f | f in s.revoked ::
      s.revoked[f].at <= s.now && (MarkInTable(s, f) || FamilyExpired(s.rows, f, s.now))
  }

  /** No access token was signed for a family after its first revocation. */
  ghost predicate AccessBeforeRevocation(s: State) {
    forall j | j in s.issued && s.issued[j].family in s.revoked ::
      s.issued[j].iat <= s.revoked[s.issued[j].family].at
  }

  ghost predicate RevokedInv(s: State) {
    RowsRevoked(s) && RevocationVisible(s) && AccessBeforeRevocation(s)
  }

  ghost predicate MarkInTable(s: State, f: Family)
    requires f in s.revoked
  {
    var w := s.revoked[f].mark;
    w in s.rows && s.rows[w].family == f && s.rows[w].revokedAt == Some(s.revoked[f].at)
  }

  ghost predicate InFlight(s: State, f: Family) {
    exists op :: op in s.pending && s.pending[op].family == f
  }

  ghost predicate HasNoRows(s: State, f: Family) {
    f in s.families && forall t | t in s.rows :: s.rows[t].family != f
  }

  /** Whatever was written or is to be written to Redis concerns a revoked family or one that is gone for good. */
  ghost predicate WriteInv(s: State) {
    && (forall f | f in s.deny.redis.sessions || f in s.settled || InFlight(s, f) :: f in s.revoked || HasNoRows(s, f))
    && (forall f | f in s.deny.redis.sessions && f in s.revoked ::
          s.deny.redis.sessions[f] >= s.revoked[f].at + ACCESS_TOKEN_TTL_SECONDS)
    && (forall f | f in s.revoked && f !in s.settled :: InFlight(s, f))
  }

  /** A family whose access tokens may still be alive although its revocation has been through Redis once. */
  ghost predicate NeedsKey(s: State, f: Family) {
    && f in s.revoked && f in s.settled
    && s.now < s.revoked[f].at + ACCESS_TOKEN_TTL_SECONDS
    && !FamilyExpired(s.rows, f, s.now)
  }

  ghost predicate Keyed(s: State, f: Family) {
    && f in s.revoked && f in s.deny.redis.sessions
    && s.deny.redis.sessions[f] >= s.revoked[f].at + ACCESS_TOKEN_TTL_SECONDS
  }

  ghost predicate AllKeyed(s: State) {
    forall f | NeedsKey(s, f) :: Keyed(s, f)
  }

  /** What a sync still has to copy, provided that nothing has failed since it began. */
  ghost predicate SyncOk(s: State, sync: Sync) {
    && sync.since <= s.deny.generation
    && match sync
       case Started(_) => true
       case Read(since, ttls) =>
         && (forall f | f in ttls ::
               f in s.revoked && s.now + ttls[f] >= s.revoked[f].at + ACCESS_TOKEN_TTL_SECONDS)
         && (since == s.deny.generation ==> forall f | NeedsKey(s, f) && f !in ttls :: Keyed(s, f))
       case Copied(since) => since == s.deny.generation ==> AllKeyed(s)
  }

  ghost predicate SyncInv(s: State) {
    && (s.deny.synced ==> AllKeyed(s))
    && (forall id | id in s.syncs :: SyncOk(s, s.syncs[id]))
  }

  ghost predicate Inv(s: State) {
    MintInv(s) && ChainInv(s) && RevokedInv(s) && WriteInv(s) && SyncInv(s)
  }


  /** A step of the database alone: no family newly needs a key. */
  ghost predicate DatabaseStep(s: State, t: State) {
    && t.deny == s.deny && t.syncs == s.syncs && s.now <= t.now
    && (forall f | f in s.revoked :: f in t.revoked && t.revoked[f] == s.revoked[f])
    && (forall f | NeedsKey(t, f) :: NeedsKey(s, f))
  }

  lemma DatabaseStepKeepsSyncInv(s: State, t: State)
    requires SyncInv(s) && DatabaseStep(s, t)
    ensures SyncInv(t)
  {
    forall f | NeedsKey(t, f)
      ensures Keyed(s, f) <==> Keyed(t, f)
    {
      assert NeedsKey(s, f);
    }
    forall id | id in t.syncs
      ensures SyncOk(t, t.syncs[id])
    {
      assert SyncOk(s, s.syncs[id]);
    }
  }

  lemma LoginKeepsMintInv(s: State, a: Action)
    requires MintInv(s) && Enabled(s, a) && a.Login?
    ensures MintInv(Apply(s, a))
  {
  }

  lemma LoginKeepsChainInv(s: State, a: Action)
    requires MintInv(s) && ChainInv(s) && Enabled(s, a) && a.Login?
    ensures ChainInv(Apply(s, a))
  {
  }

  lemma LoginKeepsRowsRevoked(s: State, a: Action)
    requires MintInv(s) && RevokedInv(s) && Enabled(s, a) && a.Login?
    ensures RowsRevoked(Apply(s, a))
  {
  }

  lemma LoginKeepsRevocationVisible(s: State, a: Action)
    requires MintInv(s) && RevokedInv(s) && Enabled(s, a) && a.Login?
    ensures RevocationVisible(Apply(s, a))
  {
    var t := Apply(s, a);
    forall f | f in t.revoked
      ensures MarkInTable(t, f) || FamilyExpired(t.rows, f, t.now)
    {
      assert MarkInTable(s, f) || FamilyExpired(s.rows, f, s.now);
    }
  }

  lemma LoginKeepsAccess(s: State, a: Action)
    requires MintInv(s) && RevokedInv(s) && Enabled(s, a) && a.Login?
    ensures AccessBeforeRevocation(Apply(s, a))
  {
  }

  lemma LoginKeepsWriteInv(s: State, a: Action)
    requires WriteInv(s) && Enabled(s, a) && a.Login?
    ensures WriteInv(Apply(s, a))
  {
  }

  lemma LoginKeepsSyncInv(s: State, a: Action)
    requires RowsRevoked(s) && SyncInv(s) && Enabled(s, a) && a.Login?
    ensures SyncInv(Apply(s, a))
  {
    var t := Apply(s, a);
    assert DatabaseStep(s, t);
    DatabaseStepKeepsSyncInv(s, t);
  }

  /** A rotating refresh is proof that no row of its family was ever revoked. */
  lemma RotatableIsUnrevoked(s: State, presented: Token)
    requires RevokedInv(s) && Rotatable(s.rows, s.now, presented)
    ensures s.rows[presented].family !in s.revoked
  {
    var f := s.rows[presented].family;
    if f in s.revoked && MarkInTable(s, f) {
      assert FamilyRevoked(s.rows, f);
    }
  }

  lemma RotationKeepsMintInv(s: State, a: Action)
    requires MintInv(s) && Enabled(s, a) && a.Refresh? && RefreshOutcome(s.rows, s.now, a.presented, a.next).Rotated?
    ensures MintInv(Apply(s, a))
  {
    var t := Apply(s, a);
    var family := s.rows[a.presented].family;
    forall u | u in t.minted && u !in t.rows
      ensures FamilyExpired(t.rows, t.minted[u].family, t.now)
    {
      assert u in s.minted && u !in s.rows && FamilyExpired(s.rows, s.minted[u].family, s.now);
      assert s.minted[u].family != family;
    }
  }

  lemma RotationKeepsChainInv(s: State, a: Action)
    requires MintInv(s) && ChainInv(s) && Enabled(s, a) && a.Refresh? && RefreshOutcome(s.rows, s.now, a.presented, a.next).Rotated?
    ensures ChainInv(Apply(s, a))
  {
  }

  lemma RotationKeepsRowsRevoked(s: State, a: Action)
    requires MintInv(s) && RevokedInv(s) && Enabled(s, a) && a.Refresh? && RefreshOutcome(s.rows, s.now, a.presented, a.next).Rotated?
    ensures RowsRevoked(Apply(s, a))
  {
  }

  lemma RotationKeepsRevocationVisible(s: State, a: Action)
    requires MintInv(s) && RevokedInv(s) && Enabled(s, a) && a.Refresh? && RefreshOutcome(s.rows, s.now, a.presented, a.next).Rotated?
    ensures RevocationVisible(Apply(s, a))
  {
    RotatableIsUnrevoked(s, a.presented);
    var t := Apply(s, a);
    forall f | f in t.revoked
      ensures MarkInTable(t, f) || FamilyExpired(t.rows, f, t.now)
    {
      assert MarkInTable(s, f) || FamilyExpired(s.rows, f, s.now);
    }
  }

  lemma RotationKeepsAccess(s: State, a: Action)
    requires MintInv(s) && RevokedInv(s) && Enabled(s, a) && a.Refresh? && RefreshOutcome(s.rows, s.now, a.presented, a.next).Rotated?
    ensures AccessBeforeRevocation(Apply(s, a))
  {
    RotatableIsUnrevoked(s, a.presented);
  }

  lemma RotationKeepsWriteInv(s: State, a: Action)
    requires WriteInv(s) && Enabled(s, a) && a.Refresh? && RefreshOutcome(s.rows, s.now, a.presented, a.next).Rotated?
    ensures WriteInv(Apply(s, a))
  {
  }

  lemma RotationKeepsSyncInv(s: State, a: Action)
    requires SyncInv(s) && Enabled(s, a) && a.Refresh? && RefreshOutcome(s.rows, s.now, a.presented, a.next).Rotated?
    ensures SyncInv(Apply(s, a))
  {
    var t := Apply(s, a);
    assert DatabaseStep(s, t);
    DatabaseStepKeepsSyncInv(s, t);
  }

  lemma TickKeepsMintInv(s: State, a: Action)
    requires MintInv(s) && Enabled(s, a) && a.Tick?
    ensures MintInv(Apply(s, a))
  {
  }

  lemma TickKeepsChainInv(s: State, a: Action)
    requires MintInv(s) && ChainInv(s) && Enabled(s, a) && a.Tick?
    ensures ChainInv(Apply(s, a))
  {
  }

  lemma TickKeepsRowsRevoked(s: State, a: Action)
    requires MintInv(s) && RevokedInv(s) && Enabled(s, a) && a.Tick?
    ensures RowsRevoked(Apply(s, a))
  {
  }

  lemma TickKeepsRevocationVisible(s: State, a: Action)
    requires MintInv(s) && RevokedInv(s) && Enabled(s, a) && a.Tick?
    ensures RevocationVisible(Apply(s, a))
  {
    var t := Apply(s, a);
    forall f | f in t.revoked
      ensures MarkInTable(t, f) || FamilyExpired(t.rows, f, t.now)
    {
      assert MarkInTable(s, f) || FamilyExpired(s.rows, f, s.now);
    }
  }

  lemma TickKeepsAccess(s: State, a: Action)
    requires MintInv(s) && RevokedInv(s) && Enabled(s, a) && a.Tick?
    ensures AccessBeforeRevocation(Apply(s, a))
  {
  }

  lemma TickKeepsWriteInv(s: State, a: Action)
    requires WriteInv(s) && Enabled(s, a) && a.Tick?
    ensures WriteInv(Apply(s, a))
  {
  }

  lemma TickKeepsSyncInv(s: State, a: Action)
    requires SyncInv(s) && Enabled(s, a) && a.Tick?
    ensures SyncInv(Apply(s, a))
  {
    var t := Apply(s, a);
    assert DatabaseStep(s, t);
    DatabaseStepKeepsSyncInv(s, t);
  }

  lemma CleanupKeepsMintInv(s: State, a: Action)
    requires MintInv(s) && Enabled(s, a) && a.Cleanup?
    ensures MintInv(Apply(s, a))
  {
  }

  lemma CleanupKeepsChainInv(s: State, a: Action)
    requires MintInv(s) && ChainInv(s) && Enabled(s, a) && a.Cleanup?
    ensures ChainInv(Apply(s, a))
  {
  }

  lemma CleanupKeepsRowsRevoked(s: State, a: Action)
    requires MintInv(s) && RevokedInv(s) && Enabled(s, a) && a.Cleanup?
    ensures RowsRevoked(Apply(s, a))
  {
  }

  lemma CleanupKeepsRevocationVisible(s: State, a: Action)
    requires MintInv(s) && RevokedInv(s) && Enabled(s, a) && a.Cleanup?
    ensures RevocationVisible(Apply(s, a))
  {
    var t := Apply(s, a);
    forall f | f in t.revoked
      ensures MarkInTable(t, f) || FamilyExpired(t.rows, f, t.now)
    {
      assert MarkInTable(s, f) || FamilyExpired(s.rows, f, s.now);
    }
  }

  lemma CleanupKeepsAccess(s: State, a: Action)
    requires MintInv(s) && RevokedInv(s) && Enabled(s, a) && a.Cleanup?
    ensures AccessBeforeRevocation(Apply(s, a))
  {
  }

  lemma CleanupKeepsWriteInv(s: State, a: Action)
    requires WriteInv(s) && Enabled(s, a) && a.Cleanup?
    ensures WriteInv(Apply(s, a))
  {
  }

  lemma CleanupKeepsSyncInv(s: State, a: Action)
    requires SyncInv(s) && Enabled(s, a) && a.Cleanup?
    ensures SyncInv(Apply(s, a))
  {
    var t := Apply(s, a);
    assert DatabaseStep(s, t);
    DatabaseStepKeepsSyncInv(s, t);
  }

  lemma RevokingKeepsHistory(s: State, f: Family, marked: set<Token>, op: nat, w: Write)
    requires MintInv(s) && ChainInv(s) && f in s.families && MayMark(s.rows, f, marked)
    ensures MintInv(Revoking(s, f, marked, op, w)) && ChainInv(Revoking(s, f, marked, op, w))
  {
  }

  lemma RevokingKeepsRowsRevoked(s: State, f: Family, marked: set<Token>, op: nat, w: Write)
    requires RevokedInv(s) && f in s.families && MayMark(s.rows, f, marked)
    ensures RowsRevoked(Revoking(s, f, marked, op, w))
  {
  }

  lemma RevokingKeepsRevocationVisible(s: State, f: Family, marked: set<Token>, op: nat, w: Write)
    requires RevokedInv(s) && f in s.families && MayMark(s.rows, f, marked)
    ensures RevocationVisible(Revoking(s, f, marked, op, w))
  {
    var t := Revoking(s, f, marked, op, w);
    forall g | g in t.revoked
      ensures t.revoked[g].at <= t.now && (MarkInTable(t, g) || FamilyExpired(t.rows, g, t.now))
    {
      if g in s.revoked && MarkInTable(s, g) {
        assert s.revoked[g].mark !in marked;
      }
    }
  }

  lemma RevokingKeepsAccess(s: State, f: Family, marked: set<Token>, op: nat, w: Write)
    requires MintInv(s) && RevokedInv(s) && f in s.families && MayMark(s.rows, f, marked)
    ensures AccessBeforeRevocation(Revoking(s, f, marked, op, w))
  {
  }

  lemma RevokingKeepsWriteInv(s: State, f: Family, marked: set<Token>, op: nat, w: Write)
    requires RowsRevoked(s) && WriteInv(s) && f in s.families && MayMark(s.rows, f, marked) && op !in s.pending && w.family == f
    ensures WriteInv(Revoking(s, f, marked, op, w))
  {
    var t := Revoking(s, f, marked, op, w);
    assert op in t.pending && t.pending[op].family == f;
    forall g | g in t.revoked && g !in t.settled
      ensures InFlight(t, g)
    {
      if g != f {
        var o :| o in s.pending && s.pending[o].family == g;
        assert o in t.pending && t.pending[o].family == g;
      }
    }
    if f !in t.revoked {
      forall u | u in s.rows
        ensures s.rows[u].family != f
      {
        assert u !in Unrevoked(s.rows, f);
      }
    }
    forall g | InFlight(t, g) && g != f
      ensures InFlight(s, g)
    {
      var o :| o in t.pending && t.pending[o].family == g;
      assert o in s.pending;
    }
  }

  lemma RevokingKeepsSyncInv(s: State, f: Family, marked: set<Token>, op: nat, w: Write)
    requires Inv(s) && f in s.families && MayMark(s.rows, f, marked)
    ensures SyncInv(Revoking(s, f, marked, op, w))
  {
    var t := Revoking(s, f, marked, op, w);
    forall g | NeedsKey(t, g)
      ensures NeedsKey(s, g)
    {
      if g !in s.revoked {
        assert false;
      }
    }
    DatabaseStepKeepsSyncInv(s, t);
  }

  /** A step of the process or of Redis: the database and the history stay. */
  ghost predicate RedisStep(s: State, t: State) {
    t == s.(deny := t.deny, pending := t.pending, syncs := t.syncs, settled := t.settled)
  }

  lemma RedisStepKeepsMintInv(s: State, t: State)
    requires MintInv(s) && RedisStep(s, t)
    ensures MintInv(t)
  {
  }

  lemma RedisStepKeepsChainInv(s: State, t: State)
    requires ChainInv(s) && RedisStep(s, t)
    ensures ChainInv(t)
  {
  }

  lemma RedisStepKeepsRevoked(s: State, t: State)
    requires RevokedInv(s) && RedisStep(s, t)
    ensures RevokedInv(t)
  {
    forall f | f in t.revoked
      ensures MarkInTable(t, f) || FamilyExpired(t.rows, f, t.now)
    {
      assert MarkInTable(s, f) || FamilyExpired(s.rows, f, s.now);
    }
  }

  lemma RedisStepKeepsHistory(s: State, t: State)
    requires MintInv(s) && ChainInv(s) && RevokedInv(s) && RedisStep(s, t)
    ensures MintInv(t) && ChainInv(t) && RevokedInv(t)
  {
    RedisStepKeepsMintInv(s, t);
    RedisStepKeepsChainInv(s, t);
    RedisStepKeepsRevoked(s, t);
  }

  /** Every key of a revoked family outlives the access tokens of the family. */
  ghost predicate KeysLastLong(s: State, redis: Redis) {
    && (forall f | f in redis.sessions && f in s.revoked ::
          redis.sessions[f] >= s.revoked[f].at + ACCESS_TOKEN_TTL_SECONDS)
    && (forall f | f in redis.sessions :: f in s.revoked || HasNoRows(s, f))
  }

  lemma PerformedKeyLastsLong(s: State, w: Write)
    requires RevocationVisible(s) && WriteInv(s) && InFlight(s, w.family)
    ensures KeysLastLong(s, Perform(s.deny.redis, w, s.now))
  {
  }

  lemma RestoredKeysLastLong(s: State, ttls: map<Family, int>)
    requires WriteInv(s)
    requires forall f | f in ttls :: f in s.revoked && s.now + ttls[f] >= s.revoked[f].at + ACCESS_TOKEN_TTL_SECONDS
    ensures KeysLastLong(s, Restore(s.deny.redis, ttls, s.now))
  {
  }

  lemma RedisStepKeepsWriteInv(s: State, t: State)
    requires WriteInv(s) && RedisStep(s, t) && KeysLastLong(s, t.deny.redis)
    requires forall f | f in t.settled || InFlight(t, f) :: f in s.settled || InFlight(s, f)
    requires forall f | f in t.revoked && f !in t.settled :: InFlight(t, f)
    ensures WriteInv(t)
  {
    forall f | f in t.deny.redis.sessions || f in t.settled || InFlight(t, f)
      ensures f in t.revoked || HasNoRows(t, f)
    {
      assert f in s.revoked || HasNoRows(s, f);
    }
  }

  lemma OneWriteLess(s: State, t: State, op: nat)
    requires op in s.pending && t.pending == s.pending - {op}
    ensures forall f | InFlight(t, f) :: InFlight(s, f)
    ensures forall f | InFlight(s, f) && f != s.pending[op].family :: InFlight(t, f)
  {
    forall f | InFlight(s, f) && f != s.pending[op].family
      ensures InFlight(t, f)
    {
      var o :| o in s.pending && s.pending[o].family == f;
      assert o in t.pending;
    }
  }

  lemma WrittenKeysLastLong(s: State, w: Write, fate: Fate)
    requires RevocationVisible(s) && WriteInv(s) && InFlight(s, w.family)
    ensures KeysLastLong(s, Written(s.deny, w, s.now, fate).redis)
  {
    PerformedKeyLastsLong(s, w);
  }

  lemma FinishWriteKeepsWriteInv(s: State, a: Action)
    requires RevocationVisible(s) && WriteInv(s) && Enabled(s, a) && a.FinishWrite?
    ensures WriteInv(Apply(s, a))
  {
    var t := Apply(s, a);
    assert InFlight(s, s.pending[a.op].family);
    WrittenKeysLastLong(s, s.pending[a.op], a.fate);
    OneWriteLess(s, t, a.op);
    RedisStepKeepsWriteInv(s, t);
  }

  lemma FinishWriteKeepsSyncInv(s: State, a: Action)
    requires RevocationVisible(s) && WriteInv(s) && SyncInv(s) && Enabled(s, a) && a.FinishWrite?
    ensures SyncInv(Apply(s, a))
  {
    var t := Apply(s, a);
    var f := s.pending[a.op].family;
    if a.fate.Acknowledged? {
      forall g | NeedsKey(t, g)
        ensures g == f || NeedsKey(s, g)
        ensures (g == f || Keyed(s, g)) ==> Keyed(t, g)
      {
      }
    }
    forall id | id in t.syncs
      ensures SyncOk(t, t.syncs[id])
    {
      assert SyncOk(s, s.syncs[id]);
    }
  }

  lemma ReadRevokedKeepsSyncInv(s: State, a: Action)
    requires RevokedInv(s) && SyncInv(s) && Enabled(s, a) && a.ReadRevoked?
    ensures SyncInv(Apply(s, a))
  {
    var t := Apply(s, a);
    var ttls := RecentlyRevoked(s.rows, s.now);
    forall f | f in ttls
      ensures f in s.revoked && s.now + ttls[f] >= s.revoked[f].at + ACCESS_TOKEN_TTL_SECONDS
    {
      var u := RecentlyRevokedWitness(s.rows, s.now, f);
    }
    forall f | NeedsKey(s, f)
      ensures f in ttls
    {
      RecentlyRevokedTtl(s.rows, s.now, s.revoked[f].mark);
    }
    OtherSyncsStay(s, t);
    assert SyncOk(s, s.syncs[a.id]);
    assert SyncOk(t, t.syncs[a.id]);
  }

  /** A sync that is not itself at work is none the worse when families only gain keys. */
  lemma OtherSyncsStay(s: State, t: State)
    requires SyncInv(s) && RedisStep(s, t)
    requires s.deny.generation <= t.deny.generation
    requires t.deny.generation == s.deny.generation ==>
               forall f | NeedsKey(t, f) :: NeedsKey(s, f) && (Keyed(s, f) ==> Keyed(t, f))
    ensures forall id | id in s.syncs :: SyncOk(t, s.syncs[id])
    ensures t.deny.synced && s.deny.synced && t.deny.generation == s.deny.generation ==> AllKeyed(t)
  {
    forall id | id in s.syncs
      ensures SyncOk(t, s.syncs[id])
    {
      assert SyncOk(s, s.syncs[id]);
    }
  }

  lemma CopyRevokedKeepsSyncInv(s: State, a: Action)
    requires WriteInv(s) && SyncInv(s) && Enabled(s, a) && a.CopyRevoked?
    ensures SyncInv(Apply(s, a))
  {
    var t := Apply(s, a);
    var sync := s.syncs[a.id];
    assert SyncOk(s, sync);
    forall f | NeedsKey(t, f)
      ensures Keyed(s, f) || f in sync.ttls ==> Keyed(t, f)
    {
    }
    OtherSyncsStay(s, t);
    assert SyncOk(t, t.syncs[a.id]);
  }

  lemma FailureKeepsSyncInv(s: State, a: Action)
    requires WriteInv(s) && SyncInv(s) && Enabled(s, a) && (a.CopyFails? || a.CloseRedis?)
    ensures SyncInv(Apply(s, a))
  {
    OtherSyncsStay(s, Apply(s, a));
  }

  lemma SyncEdgeKeepsSyncInv(s: State, a: Action)
    requires SyncInv(s) && Enabled(s, a) && (a.BeginSync? || a.CompareGeneration? || a.AbandonSync?)
    ensures SyncInv(Apply(s, a))
  {
    if a.CompareGeneration? {
      assert SyncOk(s, s.syncs[a.id]);
    }
    OtherSyncsStay(s, Apply(s, a));
  }

  /** The steps of a sync, and the loss of the connection. */
  predicate IsSyncStep(a: Action) {
    || a.BeginSync? || a.ReadRevoked? || a.CopyRevoked? || a.CopyFails?
    || a.CompareGeneration? || a.AbandonSync? || a.CloseRedis?
  }

  lemma SyncStepKeysLastLong(s: State, a: Action)
    requires WriteInv(s) && SyncInv(s) && Enabled(s, a)
    requires IsSyncStep(a)
    ensures KeysLastLong(s, Apply(s, a).deny.redis)
  {
    if a.CopyRevoked? {
      assert SyncOk(s, s.syncs[a.id]);
      RestoredKeysLastLong(s, s.syncs[a.id].ttls);
    } else if a.CopyFails? {
      assert SyncOk(s, s.syncs[a.id]);
      RestoredKeysLastLong(s, Executed(s.syncs[a.id].ttls, a.executed, true));
    }
  }

  lemma RedisKeepsWriteInv(s: State, a: Action)
    requires WriteInv(s) && SyncInv(s) && Enabled(s, a)
    requires IsSyncStep(a)
    ensures WriteInv(Apply(s, a))
  {
    var t := Apply(s, a);
    SyncStepKeysLastLong(s, a);
    assert t.pending == s.pending && t.settled == s.settled;
    assert forall f :: InFlight(t, f) <==> InFlight(s, f);
    RedisStepKeepsWriteInv(s, t);
  }

  lemma RestartKeepsInv(s: State, a: Action)
    requires WriteInv(s) && SyncInv(s) && Enabled(s, a) && a.Restart?
    ensures WriteInv(Apply(s, a)) && SyncInv(Apply(s, a))
  {
    var t := Apply(s, a);
    forall f | f in t.settled
      ensures f in s.settled || InFlight(s, f)
    {
    }
  }

  lemma RevokingKeepsInv(s: State, f: Family, marked: set<Token>, op: nat, w: Write, t: State)
    requires Inv(s) && f in s.families && MayMark(s.rows, f, marked) && op !in s.pending && w.family == f
    requires t == Revoking(s, f, marked, op, w)
    ensures Inv(t)
  {
    RevokingKeepsHistory(s, f, marked, op, w);
    RevokingKeepsRowsRevoked(s, f, marked, op, w);
    RevokingKeepsRevocationVisible(s, f, marked, op, w);
    RevokingKeepsAccess(s, f, marked, op, w);
    RevokingKeepsWriteInv(s, f, marked, op, w);
    RevokingKeepsSyncInv(s, f, marked, op, w);
  }

  lemma SyncStepKeepsInv(s: State, a: Action)
    requires Inv(s) && Enabled(s, a)
    requires IsSyncStep(a)
    ensures Inv(Apply(s, a))
  {
    RedisStepKeepsHistory(s, Apply(s, a));
    RedisKeepsWriteInv(s, a);
    match a
    case ReadRevoked(_) => ReadRevokedKeepsSyncInv(s, a);
    case CopyRevoked(_) => CopyRevokedKeepsSyncInv(s, a);
    case CopyFails(_, _) => FailureKeepsSyncInv(s, a);
    case CloseRedis(_, _) => FailureKeepsSyncInv(s, a);
    case _ => SyncEdgeKeepsSyncInv(s, a);
  }

  lemma TimeAndCleanupKeepInv(s: State, a: Action)
    requires Inv(s) && Enabled(s, a) && (a.Tick? || a.Cleanup?)
    ensures Inv(Apply(s, a))
  {
    if a.Tick? {
      TickKeepsMintInv(s, a);
      TickKeepsChainInv(s, a);
      TickKeepsRowsRevoked(s, a);
      TickKeepsRevocationVisible(s, a);
      TickKeepsAccess(s, a);
      TickKeepsWriteInv(s, a);
      TickKeepsSyncInv(s, a);
    } else {
      CleanupKeepsMintInv(s, a);
      CleanupKeepsChainInv(s, a);
      CleanupKeepsRowsRevoked(s, a);
      CleanupKeepsRevocationVisible(s, a);
      CleanupKeepsAccess(s, a);
      CleanupKeepsWriteInv(s, a);
      CleanupKeepsSyncInv(s, a);
    }
  }

  lemma LoginKeepsInv(s: State, a: Action)
    requires Inv(s) && Enabled(s, a) && a.Login?
    ensures Inv(Apply(s, a))
  {
    LoginKeepsMintInv(s, a);
    LoginKeepsChainInv(s, a);
    LoginKeepsRowsRevoked(s, a);
    LoginKeepsRevocationVisible(s, a);
    LoginKeepsAccess(s, a);
    LoginKeepsWriteInv(s, a);
    LoginKeepsSyncInv(s, a);
  }

  lemma RotationKeepsInv(s: State, a: Action)
    requires Inv(s) && Enabled(s, a) && a.Refresh? && RefreshOutcome(s.rows, s.now, a.presented, a.next).Rotated?
    ensures Inv(Apply(s, a))
  {
    RotationKeepsMintInv(s, a);
    RotationKeepsChainInv(s, a);
    RotationKeepsRowsRevoked(s, a);
    RotationKeepsRevocationVisible(s, a);
    RotationKeepsAccess(s, a);
    RotationKeepsWriteInv(s, a);
    RotationKeepsSyncInv(s, a);
  }

  lemma RefreshKeepsInv(s: State, a: Action)
    requires Inv(s) && Enabled(s, a) && a.Refresh?
    ensures Inv(Apply(s, a))
  {
    match RefreshOutcome(s.rows, s.now, a.presented, a.next)
    case Rotated(_, _, _) => RotationKeepsInv(s, a);
    case Reused(_, f) => RevokingKeepsInv(s, f, a.marked, a.op, SessionWrite(f), Apply(s, a));
    case Invalid =>
  }

  lemma ProcessKeepsInv(s: State, a: Action)
    requires Inv(s) && Enabled(s, a) && (a.FinishWrite? || a.Restart?)
    ensures Inv(Apply(s, a))
  {
    RedisStepKeepsHistory(s, Apply(s, a));
    if a.FinishWrite? {
      FinishWriteKeepsWriteInv(s, a);
      FinishWriteKeepsSyncInv(s, a);
    } else {
      RestartKeepsInv(s, a);
    }
  }

  lemma IssuedFamilyIsKnown(s: State, jti: Jti)
    requires MintInv(s) && jti in s.issued
    ensures s.issued[jti].family in s.families
  {
    assert s.issued[jti].paired in s.minted;
  }

  lemma LogoutMayMark(s: State, a: Action)
    requires a.Logout? && Enabled(s, a)
    ensures a.op !in s.pending && MayMark(s.rows, s.issued[a.jti].family, a.marked)
  {
  }

  lemma LogoutIsRevoking(s: State, a: Action, w: Write)
    requires a.Logout? && Enabled(s, a)
    requires w == LogoutWrite(s.issued[a.jti].family, a.jti, s.issued[a.jti].iat + ACCESS_TOKEN_TTL_SECONDS - s.now)
    ensures Apply(s, a) == Revoking(s, s.issued[a.jti].family, a.marked, a.op, w)
  {
  }

  lemma LogoutKeepsInv(s: State, a: Action)
    requires Inv(s) && Enabled(s, a) && a.Logout?
    ensures Inv(Apply(s, a))
  {
    var access := s.issued[a.jti];
    IssuedFamilyIsKnown(s, a.jti);
    LogoutMayMark(s, a);
    var w := LogoutWrite(access.family, a.jti, access.iat + ACCESS_TOKEN_TTL_SECONDS - s.now);
    LogoutIsRevoking(s, a, w);
    RevokingKeepsInv(s, access.family, a.marked, a.op, w, Apply(s, a));
  }

  /** Every action of every actor keeps the invariant. */
  lemma StepKeepsInv(s: State, a: Action)
    requires Inv(s) && Enabled(s, a)
    ensures Inv(Apply(s, a))
  {
    match a
    case Tick(_) => TimeAndCleanupKeepInv(s, a);
    case Cleanup(_) => TimeAndCleanupKeepInv(s, a);
    case Login(_, _, _, _) => LoginKeepsInv(s, a);
    case Refresh(_, _, _, _, _) => RefreshKeepsInv(s, a);
    case Logout(_, _, _) => LogoutKeepsInv(s, a);
    case FinishWrite(_, _) => ProcessKeepsInv(s, a);
    case Restart => ProcessKeepsInv(s, a);
    case _ => SyncStepKeepsInv(s, a);
  }
}
