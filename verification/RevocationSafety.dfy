/** What the token families and the denylist guarantee over whole runs of the protocol. */
module RevocationSafety {
  import opened Options
  import opened RefreshTokens
  import opened AuthDenylist
  import opened AuthMaintenance
  import opened BatchDelete
  import opened AccessAuthenticator
  import opened RevocationProtocol

  // ----- runs -----

  lemma InitialInv(now: int)
    ensures Inv(Initial(now))
  {
  }

  lemma {:induction false} RunKeepsInv(s: State, actions: seq<Action>, t: State)
    requires Inv(s) && Executes(s, actions, t)
    ensures Inv(t)
    decreases |actions|
  {
    if actions != [] {
      StepKeepsInv(s, actions[0]);
      RunKeepsInv(Apply(s, actions[0]), actions[1..], t);
    }
  }

  lemma ReachableInv(s: State)
    requires Reachable(s)
    ensures Inv(s)
  {
    var start :| Later(Initial(start), s);
    var actions :| Executes(Initial(start), actions, s);
    InitialInv(start);
    RunKeepsInv(Initial(start), actions, s);
  }

  lemma LaterInv(s: State, t: State)
    requires Inv(s) && Later(s, t)
    ensures Inv(t)
  {
    var actions :| Executes(s, actions, t);
    RunKeepsInv(s, actions, t);
  }

  /** History is only ever added to. */
  ghost predicate Extends(s: State, t: State) {
    && s.now <= t.now
    && (forall f | f in s.revoked :: f in t.revoked && t.revoked[f] == s.revoked[f])
    && s.settled <= t.settled
    && (forall u | u in s.minted :: u in t.minted && t.minted[u] == s.minted[u])
    && (forall u | u in s.exchanged :: u in t.exchanged)
    && (forall j | j in s.issued :: j in t.issued && t.issued[j] == s.issued[j])
  }

  lemma StepKeepsRevoked(s: State, a: Action)
    requires Enabled(s, a)
    ensures var t := Apply(s, a);
            && s.now <= t.now && s.settled <= t.settled
            && (forall f | f in s.revoked :: f in t.revoked && t.revoked[f] == s.revoked[f])
  {
  }

  lemma StepKeepsIssued(s: State, a: Action)
    requires Enabled(s, a)
    ensures var t := Apply(s, a);
            && (forall u | u in s.minted :: u in t.minted && t.minted[u] == s.minted[u])
            && (forall u | u in s.exchanged :: u in t.exchanged)
            && (forall j | j in s.issued :: j in t.issued && t.issued[j] == s.issued[j])
  {
  }

  lemma StepExtends(s: State, a: Action)
    requires Enabled(s, a)
    ensures Extends(s, Apply(s, a))
  {
    StepKeepsRevoked(s, a);
    StepKeepsIssued(s, a);
  }

  lemma {:induction false} RunExtends(s: State, actions: seq<Action>, t: State)
    requires Executes(s, actions, t)
    ensures Extends(s, t)
    decreases |actions|
  {
    if actions != [] {
      StepExtends(s, actions[0]);
      RunExtends(Apply(s, actions[0]), actions[1..], t);
    }
  }

  lemma LaterExtends(s: State, t: State)
    requires Later(s, t)
    ensures Extends(s, t)
  {
    var actions :| Executes(s, actions, t);
    RunExtends(s, actions, t);
  }

  lemma {:induction false} RunsCompose(s: State, first: seq<Action>, t: State, second: seq<Action>, u: State)
    requires Executes(s, first, t) && Executes(t, second, u)
    ensures Executes(s, first + second, u)
    decreases |first|
  {
    if first == [] {
      assert first + second == second;
    } else {
      RunsCompose(Apply(s, first[0]), first[1..], t, second, u);
      assert (first + second)[1..] == first[1..] + second;
    }
  }

  lemma LaterTransitive(s: State, t: State, u: State)
    requires Later(s, t) && Later(t, u)
    ensures Later(s, u)
  {
    var first :| Executes(s, first, t);
    var second :| Executes(t, second, u);
    RunsCompose(s, first, t, second, u);
  }

  lemma LaterByStep(s: State, a: Action)
    requires Enabled(s, a)
    ensures Later(s, Apply(s, a))
  {
    assert [a][1..] == [];
    assert Executes(Apply(s, a), [], Apply(s, a));
    assert Executes(s, [a], Apply(s, a));
  }

  lemma LaterByTwoSteps(s: State, a: Action, b: Action)
    requires Enabled(s, a) && Enabled(Apply(s, a), b)
    ensures Later(s, Apply(Apply(s, a), b))
  {
    LaterByStep(s, a);
    LaterByStep(Apply(s, a), b);
    LaterTransitive(s, Apply(s, a), Apply(Apply(s, a), b));
  }

  // ----- a revoked session stays revoked -----

  /** What the signature check makes of an access token the service has issued. */
  ghost function ClaimsOf(s: State, jti: Jti): Option<Claims> {
    if jti in s.issued then Some(Claims(s.issued[jti].family, jti, s.issued[jti].iat + ACCESS_TOKEN_TTL_SECONDS)) else None
  }

  ghost function Authentication(s: State, jti: Jti, redisAnswers: bool): Verdict
    requires jti in s.issued
  {
    Authenticate(ClaimsOf(s, jti), s.now, LookedUp(s.deny, jti, s.issued[jti].family, s.now, redisAnswers))
  }

  /** While an access token lives, its family has an unexpired row, so no row of the family was ever deleted. */
  lemma LiveAccessHasLiveFamily(s: State, jti: Jti)
    requires MintInv(s) && jti in s.issued && s.now < s.issued[jti].iat + ACCESS_TOKEN_TTL_SECONDS
    ensures s.issued[jti].paired in s.rows && s.rows[s.issued[jti].paired].family == s.issued[jti].family
    ensures !FamilyExpired(s.rows, s.issued[jti].family, s.now)
  {
    var paired := s.issued[jti].paired;
    assert paired in s.minted;
    assert paired in s.rows;
  }

  lemma SettledRevocationHolds(s: State, jti: Jti, redisAnswers: bool)
    requires Inv(s) && jti in s.issued
    requires s.issued[jti].family in s.revoked && s.issued[jti].family in s.settled
    ensures !Authentication(s, jti, redisAnswers).Accepted?
    ensures s.deny.synced && redisAnswers ==> Authentication(s, jti, redisAnswers) == Rejected
  {
    var f := s.issued[jti].family;
    if s.deny.synced && s.now < s.issued[jti].iat + ACCESS_TOKEN_TTL_SECONDS {
      LiveAccessHasLiveFamily(s, jti);
      assert NeedsKey(s, f);
      assert Keyed(s, f);
    }
  }

  /**
   Once a logout or a detected reuse has been through its Redis write, whether that succeeded or failed, no access
   token of the family is accepted ever again. This holds whatever happens in between: lost Redis data, failed
   writes, overlapping syncs, cleanup and restarts.
   */
  lemma RevokedAccessIsNeverAccepted(s: State, t: State, jti: Jti, redisAnswers: bool)
    requires Reachable(s) && Later(s, t)
    requires jti in t.issued && t.issued[jti].family in s.revoked && t.issued[jti].family in s.settled
    ensures !Authentication(t, jti, redisAnswers).Accepted?
    ensures t.deny.synced && redisAnswers ==> Authentication(t, jti, redisAnswers) == Rejected
  {
    ReachableInv(s);
    LaterInv(s, t);
    LaterExtends(s, t);
    SettledRevocationHolds(t, jti, redisAnswers);
  }

  /** Until its Redis write has finished, a revocation is in flight: nothing falls between the two stores. */
  lemma UnsettledRevocationIsInFlight(s: State, f: Family)
    requires Reachable(s) && f in s.revoked && f !in s.settled
    ensures InFlight(s, f)
  {
    ReachableInv(s);
  }

  // ----- nobody else is locked out -----

  /** Token keys, written or to be written, belong to sessions that were logged out. */
  ghost predicate TokenKeyInv(s: State) {
    && (forall op | op in s.pending && s.pending[op].LogoutWrite? ::
          s.pending[op].jti in s.issued && s.issued[s.pending[op].jti].family == s.pending[op].family)
    && (forall j | j in s.deny.redis.tokens ::
          j in s.issued && (s.issued[j].family in s.revoked || HasNoRows(s, s.issued[j].family)))
  }

  lemma GoneFamiliesStayGone(s: State, a: Action, f: Family)
    requires MintInv(s) && Enabled(s, a) && HasNoRows(s, f)
    ensures HasNoRows(Apply(s, a), f)
  {
  }

  lemma PendingLogoutsBelong(s: State, a: Action)
    requires TokenKeyInv(s) && Enabled(s, a)
    ensures var t := Apply(s, a);
            forall op | op in t.pending && t.pending[op].LogoutWrite? ::
              t.pending[op].jti in t.issued && t.issued[t.pending[op].jti].family == t.pending[op].family
  {
  }

  lemma TokenKeyOrigin(s: State, a: Action, j: Jti)
    requires Enabled(s, a) && j in Apply(s, a).deny.redis.tokens
    ensures j in s.deny.redis.tokens
         || (a.FinishWrite? && s.pending[a.op].LogoutWrite? && s.pending[a.op].jti == j)
  {
  }

  lemma StepKeepsTokenKeyInv(s: State, a: Action)
    requires Inv(s) && TokenKeyInv(s) && Enabled(s, a)
    ensures TokenKeyInv(Apply(s, a))
  {
    var t := Apply(s, a);
    PendingLogoutsBelong(s, a);
    StepExtends(s, a);
    forall j | j in t.deny.redis.tokens
      ensures j in t.issued && (t.issued[j].family in t.revoked || HasNoRows(t, t.issued[j].family))
    {
      TokenKeyOrigin(s, a, j);
      TokenKeyStays(s, a, j);
    }
  }

  lemma TokenKeyStays(s: State, a: Action, j: Jti)
    requires MintInv(s) && WriteInv(s) && TokenKeyInv(s) && Enabled(s, a) && Extends(s, Apply(s, a))
    requires j in s.deny.redis.tokens
          || (a.FinishWrite? && s.pending[a.op].LogoutWrite? && s.pending[a.op].jti == j)
    ensures var t := Apply(s, a);
            j in t.issued && (t.issued[j].family in t.revoked || HasNoRows(t, t.issued[j].family))
  {
    if j !in s.deny.redis.tokens {
      assert InFlight(s, s.pending[a.op].family);
    }
    var f := s.issued[j].family;
    if f !in s.revoked {
      GoneFamiliesStayGone(s, a, f);
    }
  }

  lemma {:induction false} RunKeepsTokenKeyInv(s: State, actions: seq<Action>, t: State)
    requires Inv(s) && TokenKeyInv(s) && Executes(s, actions, t)
    ensures TokenKeyInv(t)
    decreases |actions|
  {
    if actions != [] {
      StepKeepsInv(s, actions[0]);
      StepKeepsTokenKeyInv(s, actions[0]);
      RunKeepsTokenKeyInv(Apply(s, actions[0]), actions[1..], t);
    }
  }

  /** A live access token of a family that nobody revoked is let in whenever the denylist can answer at all. */
  lemma UnrevokedAccessIsAccepted(s: State, jti: Jti)
    requires Reachable(s) && jti in s.issued && s.issued[jti].family !in s.revoked
    requires s.now < s.issued[jti].iat + ACCESS_TOKEN_TTL_SECONDS && s.deny.synced
    ensures Authentication(s, jti, true).Accepted?
  {
    ReachableInv(s);
    ReachableTokenKeyInv(s);
    UnrevokedAccessHasNoKey(s, jti);
  }

  /**
   A live access token is rejected only if its family was revoked; when the denylist is out of sync or Redis does not
   answer, and only then, its holder is told to try again.
   */
  lemma LiveAccessIsRejectedOnlyIfRevoked(s: State, jti: Jti, redisAnswers: bool)
    requires Reachable(s) && jti in s.issued && s.now < s.issued[jti].iat + ACCESS_TOKEN_TTL_SECONDS
    ensures Authentication(s, jti, redisAnswers) == Rejected ==> s.issued[jti].family in s.revoked
    ensures Authentication(s, jti, redisAnswers) == CheckUnavailable <==> !s.deny.synced || !redisAnswers
  {
    ReachableInv(s);
    ReachableTokenKeyInv(s);
    if s.issued[jti].family !in s.revoked {
      UnrevokedAccessHasNoKey(s, jti);
    }
  }

  /** An access token lives for ten minutes, and a refresh token for a week. */
  lemma TokensLiveAsLongAsTheySay(s: State, jti: Jti, redisAnswers: bool)
    requires Reachable(s) && jti in s.issued
    ensures Authentication(s, jti, redisAnswers).Accepted? ==> s.now < s.issued[jti].iat + 600
    ensures forall t | t in s.rows :: t in s.minted && s.rows[t].expiresAt == s.minted[t].at + 604_800
  {
    ReachableInv(s);
  }

  lemma ReachableTokenKeyInv(s: State)
    requires Reachable(s)
    ensures TokenKeyInv(s)
  {
    var start :| Later(Initial(start), s);
    var actions :| Executes(Initial(start), actions, s);
    InitialInv(start);
    RunKeepsTokenKeyInv(Initial(start), actions, s);
  }

  lemma UnrevokedAccessHasNoKey(s: State, jti: Jti)
    requires MintInv(s) && WriteInv(s) && TokenKeyInv(s) && jti in s.issued && s.issued[jti].family !in s.revoked
    requires s.now < s.issued[jti].iat + ACCESS_TOKEN_TTL_SECONDS
    ensures jti !in s.deny.redis.tokens && s.issued[jti].family !in s.deny.redis.sessions
  {
    LiveAccessHasLiveFamily(s, jti);
  }

  // ----- the Redis key itself -----

  /** The family has a refresh token that expires no sooner than the key of its revocation has to stand. */
  ghost predicate OutlivesItsKey(s: State, f: Family)
    requires f in s.revoked
  {
    exists u :: u in s.minted && s.minted[u].family == f
      && s.minted[u].at + REFRESH_TOKEN_TTL_SECONDS >= s.revoked[f].at + ACCESS_TOKEN_TTL_SECONDS - 1
  }

  ghost predicate KeyedOrInFlight(t: State, f: Family) {
    Keyed(t, f) || InFlight(t, f)
  }

  /** In every later state in sync, within ten minutes of the revocation, the key is in Redis or on its way. */
  ghost predicate KeyGuaranteed(s: State, f: Family)
    requires f in s.revoked
  {
    forall t :: Later(s, t) && t.deny.synced && t.now < s.revoked[f].at + ACCESS_TOKEN_TTL_SECONDS
      ==> KeyedOrInFlight(t, f)
  }

  lemma LiveFamilyIsKeyed(s: State, f: Family)
    requires Inv(s) && f in s.revoked && s.deny.synced
    requires s.now < s.revoked[f].at + ACCESS_TOKEN_TTL_SECONDS && !FamilyExpired(s.rows, f, s.now)
    ensures KeyedOrInFlight(s, f)
  {
    if f in s.settled {
      assert NeedsKey(s, f);
    }
  }

  lemma OutlivingFamilyIsGuaranteed(s: State, f: Family)
    requires Inv(s) && f in s.revoked && OutlivesItsKey(s, f)
    ensures KeyGuaranteed(s, f)
  {
    forall t | Later(s, t) && t.deny.synced && t.now < s.revoked[f].at + ACCESS_TOKEN_TTL_SECONDS
      ensures KeyedOrInFlight(t, f)
    {
      LaterInv(s, t);
      LaterExtends(s, t);
      var u :| u in s.minted && s.minted[u].family == f
        && s.minted[u].at + REFRESH_TOKEN_TTL_SECONDS >= s.revoked[f].at + ACCESS_TOKEN_TTL_SECONDS - 1;
      assert u in t.minted && u in t.rows;
      LiveFamilyIsKeyed(t, f);
    }
  }

  /** Cleanup batches, run to the end at one instant. */
  lemma {:induction false} CleanupRunsToTheEnd(s: State)
    ensures Later(s, s.(rows := s.rows - Removable(s.rows, s.now)))
    decreases |Removable(s.rows, s.now)|
  {
    var removable := Removable(s.rows, s.now);
    if removable == {} {
      assert s.rows - removable == s.rows;
      assert Executes(s, [], s);
    } else {
      BatchExists(Removable(s.rows, s.now), CLEANUP_BATCH);
      var batch :| Batch(Removable(s.rows, s.now), CLEANUP_BATCH, batch);
      var t := Apply(s, Cleanup(batch));
      LaterByStep(s, Cleanup(batch));
      AfterBatch(s.rows, s.now, batch);
      assert |removable| > 0;
      CleanupRunsToTheEnd(t);
      assert t.(rows := t.rows - Removable(t.rows, t.now)) == s.(rows := s.rows - removable);
      LaterTransitive(s, t, s.(rows := s.rows - removable));
    }
  }

  /** Time passes until the last second of the window, then the process dies and Redis comes back empty. */
  lemma LastSecondOfAnEmptyRedis(s: State, now: int) returns (t: State)
    requires s.now <= now
    ensures Later(s, t)
    ensures t == s.(now := now, deny := t.deny, pending := map[], syncs := map[], settled := t.settled)
    ensures t.deny.redis == Redis(map[], map[])
  {
    var later := Apply(s, Tick(now - s.now));
    LaterByStep(s, Tick(now - s.now));
    var restarted := Apply(later, Restart);
    LaterByStep(later, Restart);
    t := Apply(restarted, CloseRedis({}, {}));
    LaterByStep(restarted, CloseRedis({}, {}));
    LaterTransitive(s, later, restarted);
    LaterTransitive(s, restarted, t);
  }

  lemma SyncOfAnIdleProcess(s: State) returns (t: State)
    requires s.syncs == map[]
    ensures Later(s, t)
    ensures t == s.(deny := t.deny) && t.deny.synced
    ensures t.deny.redis == Restore(s.deny.redis, RecentlyRevoked(s.rows, s.now), s.now)
  {
    var begun := Apply(s, BeginSync(0));
    LaterByStep(s, BeginSync(0));
    var read := Apply(begun, ReadRevoked(0));
    LaterByStep(begun, ReadRevoked(0));
    var copied := Apply(read, CopyRevoked(0));
    LaterByStep(read, CopyRevoked(0));
    t := Apply(copied, CompareGeneration(0));
    LaterByStep(copied, CompareGeneration(0));
    LaterTransitive(s, begun, read);
    LaterTransitive(s, read, copied);
    LaterTransitive(s, copied, t);
    assert t.syncs == map[];
  }

  lemma ShortLivedFamilyLosesItsKey(s: State, f: Family) returns (t: State)
    requires Inv(s) && f in s.revoked && s.now < s.revoked[f].at + ACCESS_TOKEN_TTL_SECONDS
    requires !OutlivesItsKey(s, f)
    ensures Later(s, t) && t.deny.synced && t.now < s.revoked[f].at + ACCESS_TOKEN_TTL_SECONDS
    ensures !KeyedOrInFlight(t, f)
  {
    var empty := LastSecondOfAnEmptyRedis(s, s.revoked[f].at + ACCESS_TOKEN_TTL_SECONDS - 1);
    CleanupRunsToTheEnd(empty);
    var cleaned := empty.(rows := empty.rows - Removable(empty.rows, empty.now));
    LaterTransitive(s, empty, cleaned);
    forall u | u in s.rows && s.rows[u].family == f
      ensures u in Removable(empty.rows, empty.now)
    {
      forall v | v in s.rows && s.rows[v].family == f
        ensures s.rows[v].expiresAt < empty.now
      {
        assert v in s.minted;
      }
    }
    t := SyncOfAnIdleProcess(cleaned);
    LaterTransitive(s, cleaned, t);
    if f in t.deny.redis.sessions {
      var u := RecentlyRevokedWitness(cleaned.rows, cleaned.now, f);
      assert false;
    }
  }

  /**
   The key is guaranteed for exactly those families that keep an unexpired refresh token until the key may lapse.
   For any other family there is a run in which the cleanup deletes the revoked rows before a sync has read them.
   Such a family has no live access token left, so that RevokedAccessIsNeverAccepted needs no such condition.
   */
  lemma KeyIsGuaranteedExactlyForOutlivingFamilies(s: State, f: Family)
    requires Reachable(s) && f in s.revoked && s.now < s.revoked[f].at + ACCESS_TOKEN_TTL_SECONDS
    ensures KeyGuaranteed(s, f) <==> OutlivesItsKey(s, f)
  {
    ReachableInv(s);
    if OutlivesItsKey(s, f) {
      OutlivingFamilyIsGuaranteed(s, f);
    } else {
      var t := ShortLivedFamilyLosesItsKey(s, f);
      assert !KeyGuaranteed(s, f);
    }
  }

  /** A family that rotated on its first day only, and is found out a hundred seconds before its rows expire. */
  lemma LateReuse() returns (s: State)
    ensures Reachable(s) && 0 in s.revoked && s.now < s.revoked[0].at + ACCESS_TOKEN_TTL_SECONDS
    ensures s.minted == map[0 := Mint(0, 0, 0), 1 := Mint(0, 0, 0)]
    ensures s.revoked[0].at == REFRESH_TOKEN_TTL_SECONDS - 100
  {
    var first := Apply(Initial(0), Login(0, 0, 0, 0));
    LaterByTwoSteps(Initial(0), Login(0, 0, 0, 0), Refresh(0, 1, 1, {}, 0));
    var rotated := Apply(first, Refresh(0, 1, 1, {}, 0));
    var late := Apply(rotated, Tick(REFRESH_TOKEN_TTL_SECONDS - 100));
    assert RefreshOutcome(late.rows, late.now, 0, 2) == Reused(0, 0);
    assert Unrevoked(late.rows, 0) == {0, 1};
    LaterByTwoSteps(rotated, Tick(REFRESH_TOKEN_TTL_SECONDS - 100), Refresh(0, 2, 2, {0, 1}, 0));
    s := Apply(late, Refresh(0, 2, 2, {0, 1}, 0));
    LaterTransitive(Initial(0), rotated, s);
  }

  /** Such families there are: the guarantee does fail, with a sync in between and no write in flight. */
  lemma KeyOfLateReuseIsNotGuaranteed() returns (s: State, t: State)
    ensures Reachable(s) && 0 in s.revoked && s.now < s.revoked[0].at + ACCESS_TOKEN_TTL_SECONDS
    ensures !OutlivesItsKey(s, 0) && !KeyGuaranteed(s, 0)
    ensures Later(s, t) && t.deny.synced && t.now < s.revoked[0].at + ACCESS_TOKEN_TTL_SECONDS && !KeyedOrInFlight(t, 0)
  {
    s := LateReuse();
    ReachableInv(s);
    t := ShortLivedFamilyLosesItsKey(s, 0);
  }

  // ----- rotation -----

  /** Once a single row of a family is revoked, no refresh in that family ever rotates again. */
  lemma RevokedFamilyNeverRotates(s: State, t: State, presented: Token, next: Token)
    requires Reachable(s) && Later(s, t)
    requires presented in t.rows && FamilyRevoked(s.rows, t.rows[presented].family)
    ensures !RefreshOutcome(t.rows, t.now, presented, next).Rotated?
  {
    ReachableInv(s);
    LaterInv(s, t);
    LaterExtends(s, t);
    if Rotatable(t.rows, t.now, presented) {
      RotatableIsUnrevoked(t, presented);
      assert false;
    }
  }

  ghost predicate FamilyLives(s: State, f: Family) {
    exists u :: u in s.rows && s.rows[u].family == f && s.rows[u].expiresAt >= s.now
  }

  /** No row of a family with an unexpired row was ever deleted, however the cleanup batches fell. */
  lemma LiveFamilyIsComplete(s: State, f: Family)
    requires Reachable(s) && FamilyLives(s, f)
    ensures forall u | u in s.minted && s.minted[u].family == f :: u in s.rows
  {
    ReachableInv(s);
  }

  /** Reuse detection is complete: a spent token of a live, unrevoked family is always recognised as reused. */
  lemma SpentTokenIsRecognised(s: State, presented: Token, next: Token)
    requires Reachable(s) && presented in s.minted && presented in s.exchanged
    requires var f := s.minted[presented].family; FamilyLives(s, f) && !FamilyRevoked(s.rows, f)
    ensures RefreshOutcome(s.rows, s.now, presented, next)
         == Reused(s.minted[presented].userId, s.minted[presented].family)
  {
    ReachableInv(s);
    LiveFamilyIsComplete(s, s.minted[presented].family);
    assert presented in s.rows;
  }

  /** Reuse detection is sound: a token is called reused exactly if it has been exchanged and is not revoked itself. */
  lemma ReusedIffExchangedAndUnrevoked(s: State, presented: Token, next: Token)
    requires Reachable(s)
    ensures RefreshOutcome(s.rows, s.now, presented, next).Reused?
       <==> presented in s.rows && presented in s.exchanged && s.rows[presented].revokedAt.None?
  {
    ReachableInv(s);
  }

  /** A token is exchanged exactly while it is unspent and unexpired in the table, and no row of its family is revoked. */
  lemma ExchangedIffUnspentAndUnrevoked(s: State, a: Action)
    requires Reachable(s) && Enabled(s, a) && a.Refresh? && a.presented !in s.exchanged
    ensures a.presented in Apply(s, a).exchanged <==>
              && a.presented in s.rows && s.now < s.rows[a.presented].expiresAt
              && forall t | t in s.rows && s.rows[t].family == s.rows[a.presented].family :: s.rows[t].revokedAt.None?
  {
    ReachableInv(s);
  }

  /** Presenting a token that was never spent harms nobody: unless it is exchanged, both stores stay as they are. */
  lemma UnspentTokenRevokesNothing(s: State, a: Action)
    requires Reachable(s) && Enabled(s, a) && a.Refresh? && a.presented !in s.exchanged
    requires a.presented !in Apply(s, a).exchanged
    ensures Apply(s, a).rows == s.rows && Apply(s, a).deny == s.deny
    ensures Apply(s, a).pending == s.pending && Apply(s, a).revoked == s.revoked
  {
    ReachableInv(s);
  }

  /** A family never has two tokens that could still be refreshed. */
  lemma OneUnspentTokenPerFamily(s: State, t: Token, u: Token)
    requires Reachable(s) && t in s.rows && u in s.rows && s.rows[t].family == s.rows[u].family
    requires s.rows[t].usedAt.None? && s.rows[u].usedAt.None?
    ensures t == u
  {
    ReachableInv(s);
  }

  predicate Rotates(s: State, a: Action) {
    a.Refresh? && RefreshOutcome(s.rows, s.now, a.presented, a.next).Rotated?
  }

  /** How often a run exchanges the token for a new pair. */
  ghost function Exchanges(s: State, actions: seq<Action>, token: Token): nat
    decreases |actions|
  {
    if actions == [] || !Enabled(s, actions[0]) then 0
    else
      (if Rotates(s, actions[0]) && actions[0].presented == token then 1 else 0)
      + Exchanges(Apply(s, actions[0]), actions[1..], token)
  }

  /** What a step does to one token: a rotation spends it, and no step makes it unspent. */
  lemma StepExchangesOnce(s: State, a: Action, token: Token)
    requires ChainInv(s) && Enabled(s, a)
    ensures Rotates(s, a) && a.presented == token ==> token !in s.exchanged && token in Apply(s, a).exchanged
    ensures token in s.exchanged ==> token in Apply(s, a).exchanged
  {
  }

  lemma {:induction false} SpentTokenIsNotExchanged(s: State, actions: seq<Action>, t: State, token: Token)
    requires Inv(s) && Executes(s, actions, t)
    ensures Exchanges(s, actions, token) <= if token in s.exchanged then 0 else 1
    decreases |actions|
  {
    if actions != [] {
      StepKeepsInv(s, actions[0]);
      StepExchangesOnce(s, actions[0], token);
      SpentTokenIsNotExchanged(Apply(s, actions[0]), actions[1..], t, token);
    }
  }

  /** Over any run, each refresh token is exchanged at most once. */
  lemma TokenIsExchangedAtMostOnce(start: int, actions: seq<Action>, t: State, token: Token)
    requires Executes(Initial(start), actions, t)
    ensures Exchanges(Initial(start), actions, token) <= 1
  {
    InitialInv(start);
    SpentTokenIsNotExchanged(Initial(start), actions, t, token);
  }

  function Tokens(s: State, f: Family): set<Token> {
    set t | t in s.minted && s.minted[t].family == f
  }

  /** How many rotations of the family a run performs. */
  ghost function Rotations(s: State, actions: seq<Action>, f: Family): nat
    decreases |actions|
  {
    if actions == [] || !Enabled(s, actions[0]) then 0
    else
      (if Rotates(s, actions[0]) && s.rows[actions[0].presented].family == f then 1 else 0)
      + Rotations(Apply(s, actions[0]), actions[1..], f)
  }

  ghost predicate LogsIn(a: Action, f: Family) {
    a.Login? && a.family == f
  }

  /** Only logins and rotations mint; families come into being at logins. */
  lemma StepMints(s: State, a: Action)
    requires Enabled(s, a)
    ensures var t := Apply(s, a);
            t.minted == if a.Login? then s.minted[a.token := Mint(a.userId, a.family, s.now)]
                        else if Rotates(s, a) then
                          s.minted[a.next := Mint(s.rows[a.presented].userId, s.rows[a.presented].family, s.now)]
                        else s.minted
    ensures Apply(s, a).families == if a.Login? then s.families + {a.family} else s.families
  {
  }

  lemma StepMintsOneToken(s: State, a: Action, f: Family)
    requires Enabled(s, a)
    ensures f in Apply(s, a).families <==> f in s.families || LogsIn(a, f)
    ensures Tokens(Apply(s, a), f) == Tokens(s, f)
      + if LogsIn(a, f) then {a.token}
        else if Rotates(s, a) && s.rows[a.presented].family == f then {a.next}
        else {}
  {
    StepMints(s, a);
  }

  lemma StepInsertsOneRow(s: State, a: Action, f: Family)
    requires MintInv(s) && Enabled(s, a)
    ensures f in Apply(s, a).families <==> f in s.families || LogsIn(a, f)
    ensures |Tokens(Apply(s, a), f)| == |Tokens(s, f)|
      + if LogsIn(a, f) || (Rotates(s, a) && s.rows[a.presented].family == f) then 1 else 0
  {
    StepMintsOneToken(s, a, f);
    if LogsIn(a, f) {
      assert a.token !in Tokens(s, f);
    } else if Rotates(s, a) && s.rows[a.presented].family == f {
      assert a.next !in Tokens(s, f);
    }
  }

  lemma {:induction false} RunInsertsRows(s: State, actions: seq<Action>, t: State, f: Family)
    requires Inv(s) && Executes(s, actions, t) && f in t.families
    ensures |Tokens(t, f)| == |Tokens(s, f)| + Rotations(s, actions, f) + if f in s.families then 0 else 1
    decreases |actions|
  {
    if actions != [] {
      var a := actions[0];
      StepKeepsInv(s, a);
      StepInsertsOneRow(s, a, f);
      RunInsertsRows(Apply(s, a), actions[1..], t, f);
      if LogsIn(a, f) {
        assert f !in s.families;
      }
      if Rotates(s, a) && s.rows[a.presented].family == f {
        assert a.presented in s.minted;
      }
    }
  }

  /** The rows ever inserted in a family are the login's and one for each rotation. */
  lemma RowsAreOnePlusRotations(start: int, actions: seq<Action>, t: State, f: Family)
    requires Executes(Initial(start), actions, t) && f in t.families
    ensures |Tokens(t, f)| == 1 + Rotations(Initial(start), actions, f)
  {
    InitialInv(start);
    assert Tokens(Initial(start), f) == {};
    RunInsertsRows(Initial(start), actions, t, f);
  }

  // ----- the methods as runs -----

  lemma LoneReuseIsARun(s: State, presented: Token, next: Token, jti: Jti, op: nat, fate: Fate) returns (t: State)
    requires next !in s.minted && jti !in s.issued && op !in s.pending
    requires RefreshOutcome(s.rows, s.now, presented, next).Reused?
    ensures Later(s, t) && t.issued == s.issued
    ensures t.rows == Refreshed(s.rows, s.now, presented, next)
    ensures t.deny == Written(s.deny, SessionWrite(s.rows[presented].family), s.now, fate)
  {
    var a := Refresh(presented, next, jti, Unrevoked(s.rows, s.rows[presented].family), op);
    LaterByTwoSteps(s, a, FinishWrite(op, fate));
    t := Apply(Apply(s, a), FinishWrite(op, fate));
  }

  /** What `AuthService.Refresh` does, undisturbed, is a run: the transaction, then its Redis write if it found a reuse. */
  lemma LoneRefreshIsARun(s: State, presented: Token, next: Token, jti: Jti, op: nat, fate: Fate) returns (t: State)
    requires next !in s.minted && jti !in s.issued && op !in s.pending
    ensures Later(s, t)
    ensures t.rows == Refreshed(s.rows, s.now, presented, next)
    ensures t.deny == match RefreshOutcome(s.rows, s.now, presented, next)
                      case Reused(_, f) => Written(s.deny, SessionWrite(f), s.now, fate)
                      case _ => s.deny
    ensures jti in t.issued <==> RefreshOutcome(s.rows, s.now, presented, next).Rotated?
  {
    if RefreshOutcome(s.rows, s.now, presented, next).Reused? {
      t := LoneReuseIsARun(s, presented, next, jti, op, fate);
    } else {
      LaterByStep(s, Refresh(presented, next, jti, {}, op));
      t := Apply(s, Refresh(presented, next, jti, {}, op));
    }
  }

  lemma SettledIsRevokedOrGone(s: State, t: State, f: Family)
    requires Inv(s) && Later(s, t) && f in t.settled
    ensures f in t.revoked || HasNoRows(t, f)
  {
    LaterInv(s, t);
  }

  /** What `AuthService.Logout` does, undisturbed, is a run, after which the family counts as revoked and settled. */
  lemma LoneLogoutIsARun(s: State, jti: Jti, op: nat, fate: Fate) returns (t: State)
    requires Inv(s) && jti in s.issued && op !in s.pending
    ensures Later(s, t)
    ensures var access := s.issued[jti];
            && t.rows == Revoke(s.rows, s.now, Unrevoked(s.rows, access.family))
            && t.deny == Written(s.deny, LogoutWrite(access.family, jti, access.iat + ACCESS_TOKEN_TTL_SECONDS - s.now),
                                 s.now, fate)
            && access.family in t.settled && (access.family in t.revoked || HasNoRows(t, access.family))
  {
    var f := s.issued[jti].family;
    var a := Logout(jti, Unrevoked(s.rows, f), op);
    t := Apply(Apply(s, a), FinishWrite(op, fate));
    LaterByTwoSteps(s, a, FinishWrite(op, fate));
    SettledIsRevokedOrGone(s, t, f);
  }
}
