/**
 Rows of `refresh_tokens` and what one statement or transaction does to them.

 The table is a map keyed by the token hash, which has a unique index. Tokens, families and access token ids are
 random in the program; here they are numbers, and whoever issues one is asked for a fresh number.
 */
module RefreshTokens {
  import opened Options

  type Token = nat
  type Family = nat
  type Jti = nat

  const ACCESS_TOKEN_TTL_SECONDS: int := 10 * 60
  const REFRESH_TOKEN_TTL_SECONDS: int := 7 * 24 * 60 * 60

  datatype Row = Row(userId: nat, family: Family, expiresAt: int, usedAt: Option<int>, revokedAt: Option<int>)

  type Table = map<Token, Row>

  datatype Outcome =
    | Rotated(userId: nat, family: Family, next: Token)
    | Reused(userId: nat, family: Family)
    | Invalid

  /** The row a login or a rotation inserts. */
  function FreshRow(userId: nat, family: Family, now: int): Row {
    Row(userId, family, now + REFRESH_TOKEN_TTL_SECONDS, None, None)
  }

  predicate FamilyRevoked(rows: Table, f: Family) {
    exists t | t in rows :: rows[t].family == f && rows[t].revokedAt.Some?
  }

  /** The condition of the rotating UPDATE, with its NOT EXISTS over the siblings. */
  predicate Rotatable(rows: Table, now: int, presented: Token) {
    && presented in rows
    && rows[presented].usedAt.None?
    && rows[presented].revokedAt.None?
    && rows[presented].expiresAt > now
    && !FamilyRevoked(rows, rows[presented].family)
  }

  /** What one refresh transaction answers. */
  function RefreshOutcome(rows: Table, now: int, presented: Token, next: Token): Outcome {
    if Rotatable(rows, now, presented) then
      Rotated(rows[presented].userId, rows[presented].family, next)
    else if presented !in rows || rows[presented].usedAt.None? || rows[presented].revokedAt.Some? then
      Invalid
    else
      Reused(rows[presented].userId, rows[presented].family)
  }

  /** UPDATE used_at, then INSERT of the successor into the same family. */
  function Rotate(rows: Table, now: int, presented: Token, next: Token): Table
    requires presented in rows
  {
    rows[presented := rows[presented].(usedAt := Some(now))]
      [next := FreshRow(rows[presented].userId, rows[presented].family, now)]
  }

  function Unrevoked(rows: Table, f: Family): set<Token> {
    set t | t in rows && rows[t].family == f && rows[t].revokedAt.None?
  }

  /** UPDATE revoked_at on the given rows. */
  function Revoke(rows: Table, now: int, revoked: set<Token>): Table {
    map t | t in rows :: if t in revoked then rows[t].(revokedAt := Some(now)) else rows[t]
  }

  /** What a refresh with no concurrent writer leaves in the table. */
  function Refreshed(rows: Table, now: int, presented: Token, next: Token): Table {
    match RefreshOutcome(rows, now, presented, next)
    case Rotated(_, _, _) => Rotate(rows, now, presented, next)
    case Reused(_, f) => Revoke(rows, now, Unrevoked(rows, f))
    case Invalid => rows
  }

  /** Every row of the family is past its expiry, so the cleanup may delete them. */
  predicate FamilyExpired(rows: Table, f: Family, now: int) {
    forall t | t in rows :: rows[t].family == f ==> rows[t].expiresAt < now
  }

  function Removable(rows: Table, now: int): set<Token> {
    set t | t in rows && FamilyExpired(rows, rows[t].family, now)
  }

  /** Deleting some rows of expired families makes no other row removable and keeps the rest removable. */
  lemma RemovableAfterDelete(rows: Table, now: int, deleted: set<Token>)
    requires deleted <= Removable(rows, now)
    ensures Removable(rows - deleted, now) == Removable(rows, now) - deleted
  {
    var rest := rows - deleted;
    forall t | t in rest && FamilyExpired(rest, rest[t].family, now)
      ensures FamilyExpired(rows, rows[t].family, now)
    {
      forall u | u in rows && rows[u].family == rows[t].family
        ensures rows[u].expiresAt < now
      {
        if u in deleted {
          assert u in Removable(rows, now);
        } else {
          assert u in rest;
        }
      }
    }
  }

  /** The part of Postgres that the auth code writes. */
  class Database {
    var rows: Table

    constructor ()
      ensures rows == map[]
    {
      rows := map[];
    }
  }
}
