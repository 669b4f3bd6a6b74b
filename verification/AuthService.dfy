/** Login, refresh and logout, each as the statements it runs against Postgres followed by its denylist write. */
module AuthService {
  import opened Options
  import opened RefreshTokens
  import opened AuthDenylist

  /** The family an access token is signed for, and the refresh token that comes with it. */
  datatype TokenPair = TokenPair(userId: nat, family: Family, refreshToken: Token)

  datatype Answer = Issued(pair: TokenPair) | InvalidCredentials | InvalidRefreshToken

  class AuthService {
    const db: Database
    const denylist: AccessDenylist

    constructor (db: Database, denylist: AccessDenylist)
      ensures this.db == db && this.denylist == denylist
    {
      this.db := db;
      this.denylist := denylist;
    }

    /** `owner` is the user whose password matched, if any; family and token are freshly drawn. */
    method Login(owner: Option<nat>, family: Family, token: Token, now: int) returns (answer: Answer)
      requires token !in db.rows
      modifies db
      ensures owner.None? ==> answer == InvalidCredentials && db.rows == old(db.rows)
      ensures owner.Some? ==>
        answer == Issued(TokenPair(owner.value, family, token))
        && db.rows == old(db.rows)[token := Row(owner.value, family, now + 7 * 24 * 60 * 60, None, None)]
    {
      if owner.None? {
        return InvalidCredentials;
      }
      db.rows := db.rows[token := FreshRow(owner.value, family, now)];
      answer := Issued(TokenPair(owner.value, family, token));
    }

    /**
     `fate` is what happens to the denylist write, should the presented token turn out to be a spent one. A token that is
     unspent, revoked or unknown, and is not exchanged, leaves both stores as they were.
     */
    method Refresh(presented: Token, next: Token, now: int, fate: Fate) returns (answer: Answer)
      requires next !in db.rows
      modifies db, denylist
      ensures db.rows == Refreshed(old(db.rows), now, presented, next)
      ensures match RefreshOutcome(old(db.rows), now, presented, next)
              case Rotated(u, f, _) => answer == Issued(TokenPair(u, f, next)) && denylist.State() == old(denylist.State())
              case Reused(_, f) =>
                answer == InvalidRefreshToken
                && denylist.State() == Written(old(denylist.State()), SessionWrite(f), now, fate)
              case Invalid => answer == InvalidRefreshToken && denylist.State() == old(denylist.State())
      ensures answer.Issued? || answer == InvalidRefreshToken
      ensures answer.Issued? <==>
                && presented in old(db.rows) && old(db.rows)[presented].usedAt.None? && now < old(db.rows)[presented].expiresAt
                && forall t | t in old(db.rows) && old(db.rows)[t].family == old(db.rows)[presented].family ::
                     old(db.rows)[t].revokedAt.None?
      ensures answer.Issued? ==>
                var row := old(db.rows)[presented];
                && answer.pair == TokenPair(row.userId, row.family, next)
                && db.rows == old(db.rows)[presented := row.(usedAt := Some(now))]
                                [next := Row(row.userId, row.family, now + 7 * 24 * 60 * 60, None, None)]
                && denylist.State() == old(denylist.State())
      ensures !answer.Issued?
              && (presented !in old(db.rows) || old(db.rows)[presented].usedAt.None? || old(db.rows)[presented].revokedAt.Some?) ==>
                db.rows == old(db.rows) && denylist.State() == old(denylist.State())
      ensures presented in old(db.rows) && old(db.rows)[presented].usedAt.Some? && old(db.rows)[presented].revokedAt.None? ==>
                var f := old(db.rows)[presented].family;
                && db.rows.Keys == old(db.rows).Keys
                && (forall t | t in db.rows ::
                      var row := old(db.rows)[t];
                      db.rows[t] == if row.family == f && row.revokedAt.None? then row.(revokedAt := Some(now)) else row)
                && denylist.Wrote(old(denylist.State()), f, now, fate)
                && denylist.redis.tokens == old(denylist.redis.tokens)
    {
      if Rotatable(db.rows, now, presented) {
        db.rows := db.rows[presented := db.rows[presented].(usedAt := Some(now))];
        var row := db.rows[presented];
        db.rows := db.rows[next := FreshRow(row.userId, row.family, now)];
        return Issued(TokenPair(row.userId, row.family, next));
      }
      if presented !in db.rows || db.rows[presented].usedAt.None? || db.rows[presented].revokedAt.Some? {
        return InvalidRefreshToken;
      }
      var family := db.rows[presented].family;
      db.rows := Revoke(db.rows, now, Unrevoked(db.rows, family));
      var _ := denylist.RevokeSession(family, now, fate);
      answer := InvalidRefreshToken;
    }

    method Logout(jti: Jti, expiresAt: int, family: Family, now: int, fate: Fate) returns (failed: bool)
      modifies db, denylist
      ensures db.rows == Revoke(old(db.rows), now, Unrevoked(old(db.rows), family))
      ensures denylist.State() == Written(old(denylist.State()), LogoutWrite(family, jti, expiresAt - now), now, fate)
      ensures db.rows.Keys == old(db.rows).Keys
      ensures forall t | t in db.rows ::
                var row := old(db.rows)[t];
                db.rows[t] == if row.family == family && row.revokedAt.None? then row.(revokedAt := Some(now)) else row
      ensures denylist.Wrote(old(denylist.State()), family, now, fate)
      ensures denylist.redis.tokens == if !fate.NotDone? && now < expiresAt then old(denylist.redis.tokens)[jti := expiresAt]
                                       else old(denylist.redis.tokens)
      ensures failed <==> !fate.Acknowledged?
    {
      db.rows := Revoke(db.rows, now, Unrevoked(db.rows, family));
      failed := denylist.Logout(jti, expiresAt, family, now, fate);
    }
  }
}
