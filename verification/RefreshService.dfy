/**
 * The refresh-token part of `AuthService` over the table it updates. `refreshSession` is its two
 * halves: the read with its guards, and the command that follows it on whatever rows are then there.
 * Each command here ends before another begins.
 */
module RefreshService {
  import opened Redis
  import opened RefreshFamilies

  datatype Reply = Refused(why: Refusal) | Refreshed(next: Id)

  class RefreshService {
    var rows: Rows

    constructor ()
      ensures rows == map[]
    {
      rows := map[];
    }

    method IssueTokens(u: UserId, family: Family, id: Id, hash: Hash, now: Time)
      requires id !in rows
      modifies this
      ensures rows == old(rows)[id := NewRow(u, family, hash, now)]
      ensures rows[id] == Row(u, family, hash, now + 2_592_000_000, None, None)
    {
      rows := rows[id := Row(u, family, hash, now + REFRESH_TTL_MS, None, None)];
    }

    /** `updateMany` on the unrevoked rows of a family. */
    method RevokeTheFamily(f: Family, now: Time)
      modifies this
      ensures rows == RevokeFamily(old(rows), f, now)
      ensures rows.Keys == old(rows).Keys
      ensures forall i :: i in rows ==>
                rows[i] == if old(rows)[i].familyId == f && old(rows)[i].revokedAt.None?
                           then old(rows)[i].(revokedAt := Some(now)) else old(rows)[i]
    {
      rows := map i | i in rows ::
        if rows[i].familyId == f && rows[i].revokedAt.None? then rows[i].(revokedAt := Some(now)) else rows[i];
    }

    method LogoutAll(u: UserId, now: Time)
      modifies this
      ensures rows == RevokeUser(old(rows), u, now)
      ensures rows.Keys == old(rows).Keys
      ensures forall i :: i in rows ==>
                rows[i] == if old(rows)[i].userId == u && old(rows)[i].revokedAt.None?
                           then old(rows)[i].(revokedAt := Some(now)) else old(rows)[i]
    {
      rows := map i | i in rows ::
        if rows[i].userId == u && rows[i].revokedAt.None? then rows[i].(revokedAt := Some(now)) else rows[i];
    }

    method DeleteAccount(u: UserId)
      modifies this
      ensures rows == DeleteUser(old(rows), u)
      ensures forall i :: i in rows <==> i in old(rows) && old(rows)[i].userId != u
      ensures forall i :: i in rows ==> rows[i] == old(rows)[i]
    {
      rows := map i | i in rows && rows[i].userId != u :: rows[i];
    }

    method BeginRefresh(t: Token, now: Time) returns (c: Decision)
      ensures c == Decide(rows, t, now)
    {
      if t.jti !in rows {
        return Refuse(Invalid);
      }
      var stored := rows[t.jti];
      if stored.userId != t.sub || stored.familyId != t.fid {
        return Revoking(stored.familyId, now, Invalid);
      }
      if stored.tokenHash != t.hash {
        return Revoking(stored.familyId, now, Invalid);
      }
      if stored.revokedAt.Some? {
        return Revoking(stored.familyId, now, Reused);
      }
      if stored.expiresAt <= now {
        return Expiring(t.jti, now);
      }
      c := Rotating(t, now);
    }

    /** `updateMany` with the compare-and-set guard, and its count. */
    method ReplaceIfUnrevoked(id: Id, now: Time, next: Id) returns (count: nat)
      modifies this
      ensures count == if Swappable(old(rows), id) then 1 else 0
      ensures count == 0 ==> rows == old(rows)
      ensures count == 1 ==> rows == old(rows)[id := old(rows)[id].(revokedAt := Some(now), replacedById := Some(next))]
    {
      if id !in rows || rows[id].revokedAt.Some? {
        return 0;
      }
      rows := rows[id := rows[id].(revokedAt := Some(now), replacedById := Some(next))];
      count := 1;
    }

    method FinishRefresh(c: Decision, next: Id, hash: Hash) returns (r: Reply)
      modifies this
      ensures r.Refreshed? <==> c.Rotating? && Swappable(old(rows), c.token.jti)
      ensures rows == match c
                      case Refuse(_) => old(rows)
                      case Revoking(f, now, _) => RevokeFamily(old(rows), f, now)
                      case Expiring(id, now) => Expire(old(rows), id, now)
                      case Rotating(t, now) =>
                        if Swappable(old(rows), t.jti) then Swap(old(rows), t, now, next, hash)
                        else RevokeFamily(old(rows), t.fid, now)
      ensures r == match c
                   case Refuse(why) => Refused(why)
                   case Revoking(_, _, why) => Refused(why)
                   case Expiring(_, _) => Refused(Expired)
                   case Rotating(t, _) => if Swappable(old(rows), t.jti) then Refreshed(next) else Refused(AlreadyUsed)
    {
      match c
      case Refuse(why) =>
        r := Refused(why);
      case Revoking(f, now, why) =>
        RevokeTheFamily(f, now);
        r := Refused(why);
      case Expiring(id, now) =>
        if id in rows {
          rows := rows[id := rows[id].(revokedAt := Some(now))];
        }
        r := Refused(Expired);
      case Rotating(t, now) =>
        var count := ReplaceIfUnrevoked(t.jti, now, next);
        if count != 1 {
          RevokeTheFamily(t.fid, now);
          return Refused(AlreadyUsed);
        }
        rows := rows[next := Row(t.sub, t.fid, hash, now + REFRESH_TTL_MS, None, None)];
        r := Refreshed(next);
    }

    /** A refresh that nothing interrupts. It succeeds exactly on an unrevoked, unexpired row that the
        token fits; a revoked row, or one that the token does not fit, costs the whole family. */
    method RefreshSession(t: Token, now: Time, next: Id, hash: Hash) returns (r: Reply)
      requires next !in rows
      modifies this
      ensures r.Refreshed? <==> t.jti in old(rows) &&
                                (var row := old(rows)[t.jti];
                                 Holds(row, t) && row.revokedAt.None? && now < row.expiresAt)
      ensures r.Refreshed? ==> r.next == next && rows.Keys == old(rows).Keys + {next} &&
                               rows[next] == Row(t.sub, t.fid, hash, now + 2_592_000_000, None, None) &&
                               rows[t.jti] == old(rows)[t.jti].(revokedAt := Some(now), replacedById := Some(next)) &&
                               forall i :: i in old(rows) && i != t.jti ==> rows[i] == old(rows)[i]
      ensures t.jti in old(rows) && (old(rows)[t.jti].revokedAt.Some? || !Holds(old(rows)[t.jti], t)) ==>
                Dead(rows, old(rows)[t.jti].familyId) && OnlyRevokes(old(rows), rows) &&
                forall i :: i in rows && rows[i].familyId != old(rows)[t.jti].familyId ==> rows[i] == old(rows)[i]
      ensures t.jti !in old(rows) ==> rows == old(rows) && r == Refused(Invalid)
      ensures r == Refused(Expired) ==> t.jti in old(rows) && old(rows)[t.jti].expiresAt <= now &&
                                        rows == old(rows)[t.jti := old(rows)[t.jti].(revokedAt := Some(now))]
    {
      var c := BeginRefresh(t, now);
      r := FinishRefresh(c, next, hash);
    }
  }
}
