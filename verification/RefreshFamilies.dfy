/**
 * Refresh tokens: rotation with reuse detection (section 4.14.2 of RFC 9700), the tokens keyed by
 * their `jti` claim. A refresh reads the row of its token, and only then, in a transaction, swaps the
 * row for its successor; other requests run between the two, and a swap that comes too late is
 * followed by an `updateMany` that revokes the family.
 *
 * Transactions run at READ COMMITTED, the database's default. The rows of this model are the committed
 * ones. A rotation becomes visible as a whole when it commits, and its guard is evaluated on the last
 * committed version of its one row, so it is one step. An `updateMany` over a family or a user is two:
 * it picks its rows from those that are committed when it starts, waits for rotations that hold them,
 * and then revokes those of them that are still unrevoked. A row that was committed in between is
 * not among them.
 */
module RefreshFamilies {
  import opened Redis

  type Id = string
  type UserId = string
  type Family = string
  type Hash = string

  const REFRESH_TTL_MS: nat := 30 * 24 * 3600 * 1000

  datatype Row = Row(
    userId: UserId, familyId: Family, tokenHash: Hash, expiresAt: Time,
    revokedAt: Option<Time>, replacedById: Option<Id>)

  type Rows = map<Id, Row>

  /** The claims of a verified refresh token, and the hash of its text. */
  datatype Token = Token(sub: UserId, fid: Family, jti: Id, hash: Hash)

  datatype Refusal = Invalid | Reused | Expired | AlreadyUsed

  /** What a request does next. */
  datatype Call =
    | Refuse(why: Refusal)
    | Revoking(family: Family, at: Time, why: Refusal)
    | Expiring(id: Id, at: Time)
    | Rotating(token: Token, at: Time)
    | Updating(seen: set<Id>, at: Time)  // an updateMany under way, on the rows it saw when it started

  type Decision = c: Call | !c.Updating? witness Refuse(Invalid)

  /** The branches of `refreshSession` up to the transaction. */
  function Decide(rows: Rows, t: Token, now: Time): Decision {
    if t.jti !in rows then Refuse(Invalid)
    else
      var stored := rows[t.jti];
      if stored.userId != t.sub || stored.familyId != t.fid then Revoking(stored.familyId, now, Invalid)
      else if stored.tokenHash != t.hash then Revoking(stored.familyId, now, Invalid)
      else if stored.revokedAt.Some? then Revoking(stored.familyId, now, Reused)
      else if stored.expiresAt <= now then Expiring(t.jti, now)
      else Rotating(t, now)
  }

  // ---- The commands ----

  function NewRow(user: UserId, family: Family, hash: Hash, now: Time): Row {
    Row(user, family, hash, now + REFRESH_TTL_MS, None, None)
  }

  function Revoked(r: Row, now: Time): Row {
    if r.revokedAt.Some? then r else r.(revokedAt := Some(now))
  }

  function RevokeFamily(rows: Rows, f: Family, now: Time): Rows {
    map i | i in rows :: if rows[i].familyId == f then Revoked(rows[i], now) else rows[i]
  }

  function RevokeUser(rows: Rows, u: UserId, now: Time): Rows {
    map i | i in rows :: if rows[i].userId == u then Revoked(rows[i], now) else rows[i]
  }

  function FamilyIds(rows: Rows, f: Family): set<Id> {
    set i | i in rows && rows[i].familyId == f
  }

  function UserIds(rows: Rows, u: UserId): set<Id> {
    set i | i in rows && rows[i].userId == u
  }

  /** The end of an `updateMany` that started on the rows `seen`. */
  function RevokeSeen(rows: Rows, seen: set<Id>, now: Time): Rows {
    map i | i in rows :: if i in seen then Revoked(rows[i], now) else rows[i]
  }

  /** One that nothing interrupts revokes the whole family, or all tokens of the user. */
  lemma UninterruptedUpdate(rows: Rows, f: Family, u: UserId, now: Time)
    ensures RevokeSeen(rows, FamilyIds(rows, f), now) == RevokeFamily(rows, f, now)
    ensures RevokeSeen(rows, UserIds(rows, u), now) == RevokeUser(rows, u, now)
  {
  }

  function DeleteUser(rows: Rows, u: UserId): Rows {
    map i | i in rows && rows[i].userId != u :: rows[i]
  }

  /** `update` by id; it throws, and changes nothing, when the row is gone. */
  function Expire(rows: Rows, id: Id, now: Time): Rows {
    if id in rows then rows[id := rows[id].(revokedAt := Some(now))] else rows
  }

  /** The guard of the compare-and-set. */
  predicate Swappable(rows: Rows, id: Id) {
    id in rows && rows[id].revokedAt.None?
  }

  function Swap(rows: Rows, t: Token, now: Time, next: Id, hash: Hash): Rows
    requires Swappable(rows, t.jti)
  {
    rows[t.jti := rows[t.jti].(revokedAt := Some(now), replacedById := Some(next))]
        [next := NewRow(t.sub, t.fid, hash, now)]
  }

  // ---- The machine ----

  /** `issued` is the history: the ids of each family in the order in which their rows were made. */
  datatype State = State(
    rows: Rows, calls: map<nat, Call>, issued: map<Family, seq<Id>>, usedIds: set<Id>)

  datatype Action =
    | Issue(user: UserId, family: Family, id: Id, hash: Hash, now: Time)
    | Begin(call: nat, token: Token, now: Time)
    | Finish(call: nat, next: Id, nextHash: Hash)
    | LogoutAll(call: nat, user: UserId, now: Time)
    | DeleteAccount(user: UserId)
    | Abort(call: nat)

  /** UUIDs are new: the family of `issueTokens`, and the id of every new row. */
  predicate Enabled(s: State, a: Action) {
    match a
    case Issue(_, f, id, _, _) => f !in s.issued && id !in s.usedIds
    case Begin(c, _, _) => c !in s.calls
    case Finish(c, next, _) => c in s.calls && next !in s.usedIds
    case LogoutAll(c, _, _) => c !in s.calls
    case DeleteAccount(_) => true
    case Abort(c) => c in s.calls
  }

  /** `LogoutAll` starts its `updateMany`, which `Finish` ends. Deleting an account is one step: the rows
      of the user that its own `deleteMany` does not see go with the user's row, at the end. An aborted
      call has crashed, or its statement was rolled back. */
  function Apply(s: State, a: Action): State
    requires Enabled(s, a)
  {
    match a
    case Issue(u, f, id, hash, now) =>
      s.(rows := s.rows[id := NewRow(u, f, hash, now)], issued := s.issued[f := [id]], usedIds := s.usedIds + {id})
    case Begin(c, t, now) =>
      s.(calls := s.calls[c := Decide(s.rows, t, now)])
    case Finish(c, next, hash) =>
      FinishCall(s, c, s.calls[c], next, hash)
    case LogoutAll(c, u, now) =>
      s.(calls := s.calls[c := Updating(UserIds(s.rows, u), now)])
    case DeleteAccount(u) =>
      s.(rows := DeleteUser(s.rows, u))
    case Abort(c) =>
      s.(calls := s.calls - {c})
  }

  /** The command that follows. A swap that fails leaves the revocation to do, and that is an `updateMany`
      that starts now and ends with the next command of the call. */
  function FinishCall(s: State, c: nat, call: Call, next: Id, hash: Hash): State {
    match call
    case Refuse(_) => s.(calls := s.calls - {c})
    case Revoking(f, now, _) => s.(calls := s.calls[c := Updating(FamilyIds(s.rows, f), now)])
    case Updating(seen, now) => s.(rows := RevokeSeen(s.rows, seen, now), calls := s.calls - {c})
    case Expiring(id, now) => s.(rows := Expire(s.rows, id, now), calls := s.calls - {c})
    case Rotating(t, now) =>
      if Swappable(s.rows, t.jti) then
        State(Swap(s.rows, t, now, next, hash), s.calls - {c},
              s.issued[t.fid := IdsOf(s, t.fid) + [next]], s.usedIds + {next})
      else
        s.(calls := s.calls[c := Revoking(t.fid, now, AlreadyUsed)])
  }

  function IdsOf(s: State, f: Family): seq<Id> {
    if f in s.issued then s.issued[f] else []
  }

  ghost predicate IsRun(tr: seq<State>, acts: seq<Action>) {
    && |tr| == |acts| + 1
    && tr[0] == State(map[], map[], map[], {})
    && forall i :: 0 <= i < |acts| ==> Enabled(tr[i], acts[i]) && tr[i + 1] == Apply(tr[i], acts[i])
  }

  /** Action `i` of the run makes a new token out of token `t`. */
  ghost predicate Refreshes(tr: seq<State>, acts: seq<Action>, i: nat, t: Token)
    requires IsRun(tr, acts) && i < |acts|
  {
    && acts[i].Finish?
    && tr[i].calls[acts[i].call].Rotating?
    && tr[i].calls[acts[i].call].token == t
    && Swappable(tr[i].rows, t.jti)
  }

  // ---- The shape of a family ----

  /** The rows of the family are exactly `ids`, each replaced by the next, and only the last may be
      unrevoked. */
  ghost predicate Chain(rows: Rows, f: Family, ids: seq<Id>) {
    && ids != []
    && (forall k :: 0 <= k < |ids| ==> ids[k] in rows && rows[ids[k]].familyId == f)
    && (forall k :: 0 <= k < |ids| ==> rows[ids[k]].userId == rows[ids[0]].userId)
    && (forall k :: 0 <= k < |ids| - 1 ==>
          rows[ids[k]].revokedAt.Some? && rows[ids[k]].replacedById == Some(ids[k + 1]))
    && rows[ids[|ids| - 1]].replacedById == None
    && (forall i :: i in rows && rows[i].familyId == f ==> i in ids)
    && (forall j, k :: 0 <= j < k < |ids| ==> ids[j] != ids[k])
  }

  ghost predicate Gone(rows: Rows, f: Family) {
    forall i :: i in rows ==> rows[i].familyId != f
  }

  /** No row of the family is unrevoked. */
  ghost predicate Dead(rows: Rows, f: Family) {
    forall i :: i in rows && rows[i].familyId == f ==> rows[i].revokedAt.Some?
  }

  /** A call that is about to swap read a row with the token's owner, family and hash, which never
      change. */
  ghost predicate CallFits(s: State, c: Call) {
    && (c.Revoking? ==> c.family in s.issued)
    && (c.Updating? ==> c.seen <= s.usedIds)
    && (c.Rotating? ==>
          && c.token.fid in s.issued && c.token.jti in s.usedIds
          && (c.token.jti in s.rows ==>
                Holds(s.rows[c.token.jti], c.token) && c.at < s.rows[c.token.jti].expiresAt))
  }

  predicate Holds(r: Row, t: Token) {
    r.userId == t.sub && r.familyId == t.fid && r.tokenHash == t.hash
  }

  ghost predicate Known(rows: Rows, issued: map<Family, seq<Id>>, usedIds: set<Id>) {
    && (forall i :: i in rows ==> rows[i].familyId in issued)
    && (forall i :: i in rows ==> i in usedIds)
    && (forall f :: f in issued ==> forall i :: i in issued[f] ==> i in usedIds)
  }

  ghost predicate Inv(s: State) {
    && Known(s.rows, s.issued, s.usedIds)
    && (forall f :: f in s.issued ==> Gone(s.rows, f) || Chain(s.rows, f, s.issued[f]))
    && (forall c :: c in s.calls ==> CallFits(s, s.calls[c]))
  }

  // ---- Every step keeps it ----

  /** What revocations do to the rows: some get a revocation time, nothing else changes. */
  ghost predicate OnlyRevokes(rows: Rows, rows': Rows) {
    && rows'.Keys == rows.Keys
    && forall i :: i in rows ==>
         && rows'[i].(revokedAt := None) == rows[i].(revokedAt := None)
         && (rows[i].revokedAt.Some? ==> rows'[i].revokedAt.Some?)
  }

  lemma RevokeSeenOnlyRevokes(rows: Rows, seen: set<Id>, now: Time)
    ensures OnlyRevokes(rows, RevokeSeen(rows, seen, now))
  {
  }

  lemma ExpireOnlyRevokes(rows: Rows, id: Id, now: Time)
    ensures OnlyRevokes(rows, Expire(rows, id, now))
  {
  }

  /** Fewer calls, or calls that are not about to swap, over rows of which some were revoked. */
  lemma OnlyRevokesKeepsInv(s: State, rows: Rows, calls: map<nat, Call>)
    requires Inv(s) && OnlyRevokes(s.rows, rows)
    requires forall c :: c in calls ==>
               (c in s.calls && s.calls[c] == calls[c]) || (CallFits(s, calls[c]) && !calls[c].Rotating?)
    ensures Inv(s.(rows := rows, calls := calls))
  {
    var s' := s.(rows := rows, calls := calls);
    forall f | f in s'.issued
      ensures Gone(s'.rows, f) || Chain(s'.rows, f, s'.issued[f])
    {
      if Chain(s.rows, f, s.issued[f]) {
        OnlyRevokesKeepsChain(s.rows, s'.rows, f, s.issued[f]);
      } else {
        assert forall i :: i in rows ==> rows[i].familyId == s.rows[i].familyId;
      }
    }
    forall c | c in s'.calls
      ensures CallFits(s', s'.calls[c])
    {
      assert CallFits(s, s'.calls[c]);
    }
  }

  lemma OnlyRevokesKeepsChain(rows: Rows, rows': Rows, f: Family, ids: seq<Id>)
    requires Chain(rows, f, ids) && OnlyRevokes(rows, rows')
    ensures Chain(rows', f, ids)
  {
  }

  /** The last row is replaced by a new last row. */
  lemma ChainGrows(rows: Rows, f: Family, ids: seq<Id>, last: Row, next: Id, row: Row)
    requires Chain(rows, f, ids) && next !in rows
    requires var r := rows[ids[|ids| - 1]]; row.familyId == f && row.userId == r.userId && row.replacedById == None &&
                                            last.familyId == f && last.userId == r.userId &&
                                            last.revokedAt.Some? && last.replacedById == Some(next)
    ensures Chain(rows[ids[|ids| - 1] := last][next := row], f, ids + [next])
  {
  }

  lemma ChainOfOthers(rows: Rows, f: Family, ids: seq<Id>, id: Id, row: Row, next: Id, row': Row)
    requires Chain(rows, f, ids) && id in rows && rows[id].familyId != f && next !in rows
    requires row.familyId != f && row'.familyId != f
    ensures Chain(rows[id := row][next := row'], f, ids)
  {
    var rows' := rows[id := row][next := row'];
    forall k | 0 <= k < |ids|
      ensures ids[k] in rows' && rows'[ids[k]] == rows[ids[k]]
    {
    }
  }

  lemma SwapKeepsChain(rows: Rows, f: Family, ids: seq<Id>, t: Token, now: Time, next: Id, hash: Hash)
    requires Swappable(rows, t.jti) && Holds(rows[t.jti], t) && next !in rows && Chain(rows, f, ids)
    ensures Chain(Swap(rows, t, now, next, hash), f, if f == t.fid then ids + [next] else ids)
  {
    var used := rows[t.jti].(revokedAt := Some(now), replacedById := Some(next));
    if f == t.fid {
      assert t.jti == ids[|ids| - 1];
      ChainGrows(rows, f, ids, used, next, NewRow(t.sub, t.fid, hash, now));
    } else {
      ChainOfOthers(rows, f, ids, t.jti, used, next, NewRow(t.sub, t.fid, hash, now));
    }
  }

  lemma SwapKeepsGone(rows: Rows, f: Family, t: Token, now: Time, next: Id, hash: Hash)
    requires Swappable(rows, t.jti) && Holds(rows[t.jti], t) && Gone(rows, f)
    ensures Gone(Swap(rows, t, now, next, hash), f)
  {
  }

  lemma ChainBesideNew(rows: Rows, f: Family, ids: seq<Id>, id: Id, row: Row)
    requires Chain(rows, f, ids) && id !in rows && row.familyId != f
    ensures Chain(rows[id := row], f, ids)
  {
    assert forall k :: 0 <= k < |ids| ==> rows[id := row][ids[k]] == rows[ids[k]];
  }

  /** A new family: its first row is the whole chain. */
  lemma ChainOfOne(rows: Rows, f: Family, id: Id, row: Row)
    requires Gone(rows, f) && row.familyId == f && row.replacedById == None
    ensures Chain(rows[id := row], f, [id])
  {
  }

  lemma IssueKeepsInv(s: State, a: Action)
    requires Inv(s) && a.Issue? && Enabled(s, a)
    ensures Inv(Apply(s, a))
  {
    var s' := Apply(s, a);
    var row := NewRow(a.user, a.family, a.hash, a.now);
    forall f | f in s'.issued
      ensures Gone(s'.rows, f) || Chain(s'.rows, f, s'.issued[f])
    {
      if f == a.family {
        ChainOfOne(s.rows, f, a.id, row);
      } else if Chain(s.rows, f, s.issued[f]) {
        ChainBesideNew(s.rows, f, s.issued[f], a.id, row);
      }
    }
  }

  lemma DeleteKeepsChain(rows: Rows, f: Family, ids: seq<Id>, u: UserId)
    requires Chain(rows, f, ids)
    ensures Gone(DeleteUser(rows, u), f) || Chain(DeleteUser(rows, u), f, ids)
  {
    var rows' := DeleteUser(rows, u);
    if rows[ids[0]].userId != u {
      assert forall k :: 0 <= k < |ids| ==> ids[k] in rows' && rows'[ids[k]] == rows[ids[k]];
    }
  }

  lemma DeleteKeepsInv(s: State, u: UserId)
    requires Inv(s)
    ensures Inv(s.(rows := DeleteUser(s.rows, u)))
  {
    var s' := s.(rows := DeleteUser(s.rows, u));
    forall f | f in s'.issued
      ensures Gone(s'.rows, f) || Chain(s'.rows, f, s'.issued[f])
    {
      if Chain(s.rows, f, s.issued[f]) {
        DeleteKeepsChain(s.rows, f, s.issued[f], u);
      }
    }
  }

  lemma SwapKeepsCalls(s: State, c: nat, next: Id, hash: Hash, d: nat)
    requires Inv(s) && c in s.calls && s.calls[c].Rotating? && Swappable(s.rows, s.calls[c].token.jti)
    requires next !in s.usedIds && d in s.calls && d != c
    ensures CallFits(FinishCall(s, c, s.calls[c], next, hash), s.calls[d])
  {
    assert CallFits(s, s.calls[c]) && CallFits(s, s.calls[d]);
  }

  lemma SwapKeepsKnown(s: State, c: nat, next: Id, hash: Hash)
    requires Inv(s) && c in s.calls && s.calls[c].Rotating? && Swappable(s.rows, s.calls[c].token.jti)
    ensures var s' := FinishCall(s, c, s.calls[c], next, hash); Known(s'.rows, s'.issued, s'.usedIds)
  {
    assert CallFits(s, s.calls[c]);
  }

  lemma SwapKeepsInv(s: State, c: nat, next: Id, hash: Hash)
    requires Inv(s) && c in s.calls && s.calls[c].Rotating? && Swappable(s.rows, s.calls[c].token.jti)
    requires next !in s.usedIds
    ensures Inv(FinishCall(s, c, s.calls[c], next, hash))
  {
    var t, now := s.calls[c].token, s.calls[c].at;
    var s' := FinishCall(s, c, s.calls[c], next, hash);
    assert CallFits(s, s.calls[c]) && Holds(s.rows[t.jti], t);
    forall f | f in s'.issued
      ensures Gone(s'.rows, f) || Chain(s'.rows, f, s'.issued[f])
    {
      if Chain(s.rows, f, s.issued[f]) {
        SwapKeepsChain(s.rows, f, s.issued[f], t, now, next, hash);
      } else {
        SwapKeepsGone(s.rows, f, t, now, next, hash);
      }
    }
    SwapKeepsKnown(s, c, next, hash);
    forall d | d in s'.calls
      ensures CallFits(s', s'.calls[d])
    {
      SwapKeepsCalls(s, c, next, hash, d);
    }
  }

  /** A Finish that makes no new row. */
  lemma OtherFinishKeepsInv(s: State, c: nat, next: Id, hash: Hash)
    requires Inv(s) && c in s.calls
    requires s.calls[c].Rotating? ==> !Swappable(s.rows, s.calls[c].token.jti)
    ensures Inv(FinishCall(s, c, s.calls[c], next, hash))
  {
    match s.calls[c]
    case Refuse(_) =>
      OnlyRevokesKeepsInv(s, s.rows, s.calls - {c});
    case Revoking(f, now, _) =>
      OnlyRevokesKeepsInv(s, s.rows, s.calls[c := Updating(FamilyIds(s.rows, f), now)]);
    case Updating(seen, now) =>
      RevokeSeenOnlyRevokes(s.rows, seen, now);
      OnlyRevokesKeepsInv(s, RevokeSeen(s.rows, seen, now), s.calls - {c});
    case Expiring(id, now) =>
      ExpireOnlyRevokes(s.rows, id, now);
      OnlyRevokesKeepsInv(s, Expire(s.rows, id, now), s.calls - {c});
    case Rotating(t, now) =>
      OnlyRevokesKeepsInv(s, s.rows, s.calls[c := Revoking(t.fid, now, AlreadyUsed)]);
  }

  lemma DecisionFits(s: State, t: Token, now: Time)
    requires Known(s.rows, s.issued, s.usedIds)
    ensures CallFits(s, Decide(s.rows, t, now))
  {
  }

  lemma NewCallKeepsInv(s: State, c: nat, call: Call)
    requires Inv(s) && CallFits(s, call)
    ensures Inv(s.(calls := s.calls[c := call]))
  {
    var s' := s.(calls := s.calls[c := call]);
    forall d | d in s'.calls
      ensures CallFits(s', s'.calls[d])
    {
      assert CallFits(s, s'.calls[d]);
    }
  }

  lemma BeginKeepsInv(s: State, c: nat, t: Token, now: Time)
    requires Inv(s)
    ensures Inv(s.(calls := s.calls[c := Decide(s.rows, t, now)]))
  {
    DecisionFits(s, t, now);
    NewCallKeepsInv(s, c, Decide(s.rows, t, now));
  }

  lemma StepKeepsInv(s: State, a: Action)
    requires Inv(s) && Enabled(s, a)
    ensures Inv(Apply(s, a))
  {
    match a
    case Issue(_, _, _, _, _) => IssueKeepsInv(s, a);
    case Begin(c, t, now) => BeginKeepsInv(s, c, t, now);
    case DeleteAccount(u) => DeleteKeepsInv(s, u);
    case LogoutAll(c, u, now) =>
      OnlyRevokesKeepsInv(s, s.rows, s.calls[c := Updating(UserIds(s.rows, u), now)]);
    case Abort(c) =>
      OnlyRevokesKeepsInv(s, s.rows, s.calls - {c});
    case Finish(c, next, hash) =>
      if s.calls[c].Rotating? && Swappable(s.rows, s.calls[c].token.jti) {
        SwapKeepsInv(s, c, next, hash);
      } else {
        OtherFinishKeepsInv(s, c, next, hash);
      }
  }

  lemma {:induction false} RunInv(tr: seq<State>, acts: seq<Action>, k: nat)
    requires IsRun(tr, acts) && k < |tr|
    ensures Inv(tr[k])
  {
    if k > 0 {
      RunInv(tr, acts, k - 1);
      StepKeepsInv(tr[k - 1], acts[k - 1]);
    }
  }

  // ---- Main results ----

  lemma UnrevokedIsTail(s: State, i: Id)
    requires Inv(s) && i in s.rows && s.rows[i].revokedAt.None?
    ensures var f := s.rows[i].familyId;
            f in s.issued && s.issued[f] != [] && i == s.issued[f][|s.issued[f]| - 1]
  {
    var f := s.rows[i].familyId;
    assert Chain(s.rows, f, s.issued[f]) && i in s.issued[f];
  }

  /** At every time the rows of a family, unless its account was deleted, are one chain of one user
      in the order of issue; an unrevoked row is the last of it, so there is at most one. */
  lemma OneChainPerFamily(tr: seq<State>, acts: seq<Action>, k: nat)
    requires IsRun(tr, acts) && k < |tr|
    ensures forall f :: f in tr[k].issued ==> Gone(tr[k].rows, f) || Chain(tr[k].rows, f, tr[k].issued[f])
    ensures forall i :: i in tr[k].rows && tr[k].rows[i].revokedAt.None? ==>
              var f := tr[k].rows[i].familyId;
              f in tr[k].issued && tr[k].issued[f] != [] && i == tr[k].issued[f][|tr[k].issued[f]| - 1]
  {
    RunInv(tr, acts, k);
    forall i | i in tr[k].rows && tr[k].rows[i].revokedAt.None?
      ensures var f := tr[k].rows[i].familyId;
              f in tr[k].issued && tr[k].issued[f] != [] && i == tr[k].issued[f][|tr[k].issued[f]| - 1]
    {
      UnrevokedIsTail(tr[k], i);
    }
  }

  /** A new family is a chain of one, and for thirty days exactly its token refreshes in it. */
  lemma IssuedIsUsable(s: State, u: UserId, f: Family, id: Id, hash: Hash, at: Time, t: Token, now: Time)
    requires Inv(s) && Enabled(s, Issue(u, f, id, hash, at)) && t.fid == f
    ensures var rows := Apply(s, Issue(u, f, id, hash, at)).rows;
            && Chain(rows, f, [id])
            && (Decide(rows, t, now).Rotating? <==> t == Token(u, f, id, hash) && now < at + 2_592_000_000)
            && (forall g :: g in s.issued && Chain(s.rows, g, s.issued[g]) ==> Chain(rows, g, s.issued[g]))
  {
    var row := NewRow(u, f, hash, at);
    ChainOfOne(s.rows, f, id, row);
    forall g | g in s.issued && Chain(s.rows, g, s.issued[g])
      ensures Chain(s.rows[id := row], g, s.issued[g])
    {
      ChainBesideNew(s.rows, g, s.issued[g], id, row);
    }
  }

  /** A new token is made only out of a row with the owner, family and hash of the token shown,
      unexpired when the request began, and then it alone is usable. */
  lemma RefreshIsEarned(tr: seq<State>, acts: seq<Action>, i: nat, t: Token)
    requires IsRun(tr, acts) && i < |acts| && Refreshes(tr, acts, i, t)
    ensures t.jti in tr[i].rows && Holds(tr[i].rows[t.jti], t)
    ensures tr[i].calls[acts[i].call].at < tr[i].rows[t.jti].expiresAt
    ensures var rows := tr[i + 1].rows;
            forall j :: j in rows && rows[j].familyId == t.fid ==>
              rows[j].userId == t.sub && (rows[j].revokedAt.None? <==> j == acts[i].next)
  {
    RunInv(tr, acts, i);
    RunInv(tr, acts, i + 1);
    var rows, ids := tr[i + 1].rows, tr[i + 1].issued[t.fid];
    assert ids[|ids| - 1] == acts[i].next && acts[i].next in rows && !Gone(rows, t.fid);
    assert Chain(rows, t.fid, ids);
  }

  lemma FinishKeepsDead(s: State, c: nat, call: Call, next: Id, hash: Hash, f: Family)
    requires Inv(s) && c in s.calls && call == s.calls[c] && f in s.issued && Dead(s.rows, f)
    ensures var s' := FinishCall(s, c, call, next, hash); f in s'.issued && Dead(s'.rows, f)
  {
    if call.Rotating? && Swappable(s.rows, call.token.jti) {
      assert CallFits(s, call) && Holds(s.rows[call.token.jti], call.token);
      assert call.token.fid != f;
    }
  }

  lemma StepKeepsDead(s: State, a: Action, f: Family)
    requires Inv(s) && Enabled(s, a) && f in s.issued && Dead(s.rows, f)
    ensures f in Apply(s, a).issued && Dead(Apply(s, a).rows, f)
  {
    if a.Finish? {
      FinishKeepsDead(s, a.call, s.calls[a.call], a.next, a.nextHash, f);
    }
  }

  lemma {:induction false} DeadForever(tr: seq<State>, acts: seq<Action>, i: nat, j: nat, f: Family)
    requires IsRun(tr, acts) && i <= j < |tr|
    requires f in tr[i].issued && Dead(tr[i].rows, f)
    ensures f in tr[j].issued && Dead(tr[j].rows, f)
  {
    if i < j {
      DeadForever(tr, acts, i, j - 1, f);
      RunInv(tr, acts, j - 1);
      StepKeepsDead(tr[j - 1], acts[j - 1], f);
    }
  }

  /** Once no row of a family is unrevoked, no refresh in it succeeds any more. */
  lemma NoRefreshOfDead(tr: seq<State>, acts: seq<Action>, i: nat, j: nat, f: Family, t: Token)
    requires IsRun(tr, acts) && i <= j < |acts| && Refreshes(tr, acts, j, t)
    requires f in tr[i].issued && Dead(tr[i].rows, f)
    ensures t.fid != f
  {
    DeadForever(tr, acts, i, j, f);
    RefreshIsEarned(tr, acts, j, t);
  }

  /** The call takes no command at step `k`. */
  predicate Idle(acts: seq<Action>, k: nat, c: nat)
    requires k < |acts|
  {
    !(acts[k].Finish? && acts[k].call == c) && acts[k] != Abort(c)
  }

  /** A call keeps what it decided until it takes its next command. */
  lemma {:induction false} CallWaits(tr: seq<State>, acts: seq<Action>, i: nat, m: nat, c: nat)
    requires IsRun(tr, acts) && i <= m < |tr| && c in tr[i].calls
    requires forall k :: i <= k < m ==> Idle(acts, k, c)
    ensures c in tr[m].calls && tr[m].calls[c] == tr[i].calls[c]
  {
    if i < m {
      assert Idle(acts, m - 1, c);
      CallWaits(tr, acts, i, m - 1, c);
    }
  }

  // ---- What an updateMany reaches ----

  /** Ids are not used twice: a row that is there later, under an id that was used before, was there
      before, in its family and with its owner; and families only grow, by new ids. */
  ghost predicate Later(s: State, s': State) {
    && s.usedIds <= s'.usedIds
    && (forall i :: i in s.usedIds && i in s'.rows ==>
          i in s.rows && s'.rows[i].familyId == s.rows[i].familyId && s'.rows[i].userId == s.rows[i].userId)
    && (forall f :: f in s.issued ==> f in s'.issued && s.issued[f] <= s'.issued[f])
    && (forall f, k :: f in s.issued && f in s'.issued && |s.issued[f]| <= k < |s'.issued[f]| ==>
          s'.issued[f][k] !in s.usedIds)
  }

  lemma SwapLater(s: State, c: nat, next: Id, hash: Hash)
    requires Inv(s) && c in s.calls && s.calls[c].Rotating? && Swappable(s.rows, s.calls[c].token.jti)
    requires next !in s.usedIds
    ensures Later(s, FinishCall(s, c, s.calls[c], next, hash))
  {
    assert CallFits(s, s.calls[c]);
  }

  lemma SameRowsLater(s: State, s': State)
    requires s'.issued == s.issued && s'.usedIds == s.usedIds
    requires s'.rows == s.rows || OnlyRevokes(s.rows, s'.rows)
    ensures Later(s, s')
  {
    if s'.rows != s.rows {
      forall i | i in s'.rows
        ensures s'.rows[i].familyId == s.rows[i].familyId && s'.rows[i].userId == s.rows[i].userId
      {
        assert s'.rows[i].(revokedAt := None) == s.rows[i].(revokedAt := None);
      }
    }
  }

  lemma IssueLater(s: State, a: Action)
    requires Inv(s) && a.Issue? && Enabled(s, a)
    ensures Later(s, Apply(s, a))
  {
  }

  lemma OtherFinishLater(s: State, c: nat, call: Call, next: Id, hash: Hash)
    requires c in s.calls && (call.Rotating? ==> !Swappable(s.rows, call.token.jti))
    ensures Later(s, FinishCall(s, c, call, next, hash))
  {
    if call.Updating? { RevokeSeenOnlyRevokes(s.rows, call.seen, call.at); }
    if call.Expiring? { ExpireOnlyRevokes(s.rows, call.id, call.at); }
    SameRowsLater(s, FinishCall(s, c, call, next, hash));
  }

  lemma FinishLater(s: State, c: nat, next: Id, hash: Hash)
    requires Inv(s) && c in s.calls && next !in s.usedIds
    ensures Later(s, FinishCall(s, c, s.calls[c], next, hash))
  {
    if s.calls[c].Rotating? && Swappable(s.rows, s.calls[c].token.jti) {
      SwapLater(s, c, next, hash);
    } else {
      OtherFinishLater(s, c, s.calls[c], next, hash);
    }
  }

  lemma DeleteLater(s: State, u: UserId)
    requires Inv(s)
    ensures Later(s, s.(rows := DeleteUser(s.rows, u)))
  {
  }

  lemma StepLater(s: State, a: Action)
    requires Inv(s) && Enabled(s, a)
    ensures Later(s, Apply(s, a))
  {
    match a
    case Issue(_, _, _, _, _) => IssueLater(s, a);
    case DeleteAccount(u) => DeleteLater(s, u);
    case Finish(c, next, hash) => FinishLater(s, c, next, hash);
    case _ => SameRowsLater(s, Apply(s, a));
  }

  lemma LaterLater(s: State, s1: State, s2: State)
    requires Later(s, s1) && Later(s1, s2)
    ensures Later(s, s2)
  {
    forall f, k | f in s.issued && f in s2.issued && |s.issued[f]| <= k < |s2.issued[f]|
      ensures s2.issued[f][k] !in s.usedIds
    {
      if k < |s1.issued[f]| {
        assert s2.issued[f][k] == s1.issued[f][k];
      }
    }
  }

  lemma LaterThenStep(s: State, s1: State, a: Action)
    requires Later(s, s1) && Inv(s1) && Enabled(s1, a)
    ensures Later(s, Apply(s1, a))
  {
    StepLater(s1, a);
    LaterLater(s, s1, Apply(s1, a));
  }

  lemma RunLater(tr: seq<State>, acts: seq<Action>, p: nat, m: nat)
    requires IsRun(tr, acts) && p <= m < |tr|
    ensures Later(tr[p], tr[m])
  {
    SameRowsLater(tr[p], tr[p]);
    for k := p to m
      invariant Later(tr[p], tr[k])
    {
      RunInv(tr, acts, k);
      LaterThenStep(tr[p], tr[k], acts[k]);
    }
  }

  /** An update that saw the whole family at `s` and ends at `s'`: if no rotation was committed in
      between, it leaves none of its rows unrevoked. */
  lemma UpdateReaches(s: State, s': State, f: Family, seen: set<Id>, at: Time)
    requires Inv(s) && Inv(s') && Later(s, s') && f in s.issued && FamilyIds(s.rows, f) <= seen
    requires s'.issued[f] == s.issued[f]
    ensures Dead(RevokeSeen(s'.rows, seen, at), f)
  {
    forall i | i in s'.rows && s'.rows[i].familyId == f
      ensures i in seen
    {
      assert i in s.issued[f];
      assert i in s.usedIds && i in FamilyIds(s.rows, f);
    }
  }

  /** If one was, the row it made was not seen, and stays as it is. */
  lemma UpdateMisses(s: State, s': State, f: Family, seen: set<Id>, at: Time)
    requires Inv(s) && Inv(s') && Later(s, s') && f in s.issued && seen <= s.usedIds
    requires s'.issued[f] != s.issued[f] && !Dead(s'.rows, f)
    ensures !Dead(RevokeSeen(s'.rows, seen, at), f)
  {
    var i :| i in s'.rows && s'.rows[i].familyId == f && s'.rows[i].revokedAt.None?;
    var ids, n := s'.issued[f], |s'.issued[f]| - 1;
    assert Chain(s'.rows, f, ids) && i == ids[n];
    assert n >= |s.issued[f]|;
    assert RevokeSeen(s'.rows, seen, at)[i] == s'.rows[i];
  }

  /** An `updateMany` that starts at step `p` and ends at step `m` saw every row of `f` that was then
      committed. It ends the family exactly if no rotation in it was committed in between, or nothing in
      it was usable anyway. */
  lemma RevocationEndsFamilyIff(tr: seq<State>, acts: seq<Action>, p: nat, m: nat, c: nat, f: Family)
    requires IsRun(tr, acts) && p < m < |acts| && f in tr[p].issued
    requires c in tr[p + 1].calls && tr[p + 1].calls[c].Updating?
    requires FamilyIds(tr[p].rows, f) <= tr[p + 1].calls[c].seen <= tr[p].rows.Keys
    requires (forall k :: p < k < m ==> Idle(acts, k, c)) && acts[m].Finish? && acts[m].call == c
    ensures f in tr[m].issued
    ensures Dead(tr[m + 1].rows, f) <==> tr[m].issued[f] == tr[p].issued[f] || Dead(tr[m].rows, f)
  {
    CallWaits(tr, acts, p + 1, m, c);
    RunInv(tr, acts, p);
    RunInv(tr, acts, m);
    RunLater(tr, acts, p, m);
    var call := tr[m].calls[c];
    if tr[m].issued[f] == tr[p].issued[f] {
      UpdateReaches(tr[p], tr[m], f, call.seen, call.at);
    } else if !Dead(tr[m].rows, f) {
      UpdateMisses(tr[p], tr[m], f, call.seen, call.at);
    }
  }

  /** A token that was replaced, revoked, or that does not fit its row is shown at step `i`. The
      request starts to revoke the family at step `p` and ends at step `m`; unless a rotation in the
      family was committed in between, every later refresh in it fails. */
  lemma ReuseEndsFamily(tr: seq<State>, acts: seq<Action>, i: nat, p: nat, m: nat, j: nat, t: Token)
    requires IsRun(tr, acts) && i < p < m < j < |acts|
    requires acts[i].Begin? && acts[i].token.jti in tr[i].rows
    requires var r := tr[i].rows[acts[i].token.jti]; r.revokedAt.Some? || !Holds(r, acts[i].token)
    requires forall k :: i < k < m && k != p ==> Idle(acts, k, acts[i].call)
    requires acts[p].Finish? && acts[p].call == acts[i].call && acts[m].Finish? && acts[m].call == acts[i].call
    requires var f := tr[i].rows[acts[i].token.jti].familyId; IdsOf(tr[m], f) == IdsOf(tr[p], f)
    requires Refreshes(tr, acts, j, t)
    ensures t.fid != tr[i].rows[acts[i].token.jti].familyId
  {
    var f := tr[i].rows[acts[i].token.jti].familyId;
    CallWaits(tr, acts, i + 1, p, acts[i].call);
    RunInv(tr, acts, i);
    RunLater(tr, acts, i, p);
    RevocationEndsFamilyIff(tr, acts, p, m, acts[i].call, f);
    RunLater(tr, acts, p, m + 1);
    NoRefreshOfDead(tr, acts, m + 1, j, f, t);
  }

  lemma {:induction false} SpentForever(tr: seq<State>, acts: seq<Action>, i: nat, j: nat, id: Id)
    requires IsRun(tr, acts) && i <= j < |tr|
    requires id in tr[i].usedIds && !Swappable(tr[i].rows, id)
    ensures id in tr[j].usedIds && !Swappable(tr[j].rows, id)
  {
    if i < j {
      SpentForever(tr, acts, i, j - 1, id);
      StepKeepsSpent(tr[j - 1], acts[j - 1], id);
    }
  }

  lemma StepKeepsSpent(s: State, a: Action, id: Id)
    requires Enabled(s, a) && id in s.usedIds && !Swappable(s.rows, id)
    ensures id in Apply(s, a).usedIds && !Swappable(Apply(s, a).rows, id)
  {
  }

  /** Of any number of requests with one token, however they interleave, at most one gets a new one. */
  lemma RefreshedAtMostOnce(tr: seq<State>, acts: seq<Action>, i: nat, j: nat, t: Token, t': Token)
    requires IsRun(tr, acts) && i < j < |acts| && Refreshes(tr, acts, i, t) && Refreshes(tr, acts, j, t')
    ensures t.jti != t'.jti
  {
    RunInv(tr, acts, i);
    SpentForever(tr, acts, i + 1, j, t.jti);
  }

  /** A second request that read the row before the swap of the first: when its own swap comes (step
      `l`), it fails; and after its revocation (steps `p` to `m`), unless a rotation in the family was
      committed meanwhile, every later refresh in the family fails. */
  lemma RaceLoserEndsFamily(tr: seq<State>, acts: seq<Action>, i: nat, l: nat, p: nat, m: nat, j: nat,
                            t: Token, t': Token)
    requires IsRun(tr, acts) && i < l < p < m < j < |acts|
    requires Refreshes(tr, acts, i, t)
    requires acts[l].Finish? && tr[l].calls[acts[l].call].Rotating? && tr[l].calls[acts[l].call].token == t
    requires forall k :: l < k < m && k != p ==> Idle(acts, k, acts[l].call)
    requires acts[p].Finish? && acts[p].call == acts[l].call && acts[m].Finish? && acts[m].call == acts[l].call
    requires IdsOf(tr[m], t.fid) == IdsOf(tr[p], t.fid)
    requires Refreshes(tr, acts, j, t')
    ensures t'.fid != t.fid
  {
    RunInv(tr, acts, i);
    SpentForever(tr, acts, i + 1, l, t.jti);
    CallWaits(tr, acts, l + 1, p, acts[l].call);
    RunLater(tr, acts, i, p);
    RevocationEndsFamilyIff(tr, acts, p, m, acts[l].call, t.fid);
    RunLater(tr, acts, p, m + 1);
    NoRefreshOfDead(tr, acts, m + 1, j, t.fid, t');
  }

  ghost predicate OwnedBy(rows: Rows, f: Family, u: UserId) {
    forall i :: i in rows && rows[i].familyId == f ==> rows[i].userId == u
  }

  lemma FinishKeepsOwner(s: State, c: nat, call: Call, next: Id, hash: Hash, f: Family, u: UserId)
    requires Inv(s) && c in s.calls && call == s.calls[c] && f in s.issued && OwnedBy(s.rows, f, u)
    ensures var s' := FinishCall(s, c, call, next, hash); f in s'.issued && OwnedBy(s'.rows, f, u)
  {
  }

  lemma StepKeepsOwner(s: State, a: Action, f: Family, u: UserId)
    requires Inv(s) && Enabled(s, a) && f in s.issued && OwnedBy(s.rows, f, u)
    ensures f in Apply(s, a).issued && OwnedBy(Apply(s, a).rows, f, u)
  {
    if a.Finish? {
      FinishKeepsOwner(s, a.call, s.calls[a.call], a.next, a.nextHash, f, u);
    }
  }

  lemma {:induction false} OwnerForever(tr: seq<State>, acts: seq<Action>, i: nat, j: nat, f: Family, u: UserId)
    requires IsRun(tr, acts) && i <= j < |tr| && f in tr[i].issued && OwnedBy(tr[i].rows, f, u)
    ensures OwnedBy(tr[j].rows, f, u) && f in tr[j].issued
  {
    if i < j {
      OwnerForever(tr, acts, i, j - 1, f, u);
      RunInv(tr, acts, j - 1);
      StepKeepsOwner(tr[j - 1], acts[j - 1], f, u);
    }
  }

  /** A family in which the user refreshes was the user's from its beginning. */
  lemma RefresherOwns(tr: seq<State>, acts: seq<Action>, i: nat, j: nat, t: Token)
    requires IsRun(tr, acts) && i <= j < |acts| && Refreshes(tr, acts, j, t) && t.fid in tr[i].issued
    ensures OwnedBy(tr[i].rows, t.fid, t.sub)
  {
    RunInv(tr, acts, i);
    var f, rows := t.fid, tr[i].rows;
    if !Gone(rows, f) {
      var owner := rows[tr[i].issued[f][0]].userId;
      assert OwnedBy(rows, f, owner);
      OwnerForever(tr, acts, i, j, f, owner);
      RefreshIsEarned(tr, acts, j, t);
    }
  }

  /** After a `logoutAll` that ran from step `p` to step `m` the user's refreshes succeed only in families
      begun after its start, or in which a rotation was committed while it ran. */
  lemma LogoutEndsFamilies(tr: seq<State>, acts: seq<Action>, p: nat, m: nat, j: nat, t: Token)
    requires IsRun(tr, acts) && p < m < j < |acts| && Refreshes(tr, acts, j, t)
    requires acts[p].LogoutAll? && acts[p].user == t.sub
    requires forall k :: p < k < m ==> Idle(acts, k, acts[p].call)
    requires acts[m].Finish? && acts[m].call == acts[p].call
    ensures t.fid !in tr[p].issued || IdsOf(tr[m], t.fid) != IdsOf(tr[p], t.fid)
  {
    if t.fid in tr[p].issued {
      RefresherOwns(tr, acts, p, j, t);
      assert FamilyIds(tr[p].rows, t.fid) <= UserIds(tr[p].rows, t.sub);
      RevocationEndsFamilyIff(tr, acts, p, m, acts[p].call, t.fid);
      RunLater(tr, acts, p, m + 1);
      if Dead(tr[m + 1].rows, t.fid) {
        NoRefreshOfDead(tr, acts, m + 1, j, t.fid, t);
      }
    }
  }

  /** After `deleteAccount` only in families begun later, whatever requests were under way. */
  lemma DeletionEndsFamilies(tr: seq<State>, acts: seq<Action>, i: nat, j: nat, t: Token)
    requires IsRun(tr, acts) && i < j < |acts| && Refreshes(tr, acts, j, t) && acts[i] == DeleteAccount(t.sub)
    ensures t.fid !in tr[i].issued
  {
    if t.fid in tr[i].issued {
      RefresherOwns(tr, acts, i, j, t);
      assert Dead(tr[i + 1].rows, t.fid);
      NoRefreshOfDead(tr, acts, i + 1, j, t.fid, t);
    }
  }

  // ---- The updates that miss a rotation ----

  function TokenOf(id: Id): Token { Token("ann", "family", id, id) }

  function LogoutActs(): seq<Action> {
    [Issue("ann", "family", "a", "a", 0), Begin(1, TokenOf("a"), 0), LogoutAll(2, "ann", 0), Finish(1, "b", "b"),
     Finish(2, "x", "x"), Begin(3, TokenOf("b"), 0), Finish(3, "c", "c")]
  }

  function ReuseActs(): seq<Action> {
    [Issue("ann", "family", "a", "a", 0), Begin(1, TokenOf("a"), 0), Finish(1, "b", "b"),
     Begin(2, TokenOf("a"), 0), Begin(3, TokenOf("b"), 0), Finish(2, "x", "x"), Finish(3, "c", "c"),
     Finish(2, "x", "x"), Begin(4, TokenOf("c"), 0), Finish(4, "d", "d")]
  }

  /** The states of a run of `LogoutActs`. */
  ghost function LogoutState(i: nat): State {
    var a, b := NewRow("ann", "family", "a", 0), NewRow("ann", "family", "b", 0);
    var used := a.(revokedAt := Some(0), replacedById := Some("b"));
    var s1 := State(map["a" := a], map[], map["family" := ["a"]], {"a"});
    var s5 := State(map["a" := used, "b" := b], map[], map["family" := ["a", "b"]], {"a", "b"});
    match i
    case 0 => State(map[], map[], map[], {})
    case 1 => s1
    case 2 => s1.(calls := map[1 := Rotating(TokenOf("a"), 0)])
    case 3 => s1.(calls := map[1 := Rotating(TokenOf("a"), 0), 2 := Updating({"a"}, 0)])
    case 4 => s5.(calls := map[2 := Updating({"a"}, 0)])
    case 5 => s5
    case _ => s5.(calls := map[3 := Rotating(TokenOf("b"), 0)])
  }

  ghost predicate LogoutStep(i: nat)
    requires i < 7
  {
    Enabled(LogoutState(i), LogoutActs()[i]) && (i < 6 ==> LogoutState(i + 1) == Apply(LogoutState(i), LogoutActs()[i]))
  }

  lemma LogoutStarts()
    ensures LogoutStep(0) && LogoutStep(1) && LogoutStep(2)
  {
    assert UserIds(LogoutState(2).rows, "ann") == {"a"};
  }

  lemma LogoutIsOvertaken()
    ensures LogoutStep(3) && LogoutStep(4)
  {
    var s, s' := LogoutState(3), LogoutState(4);
    assert s.calls - {1} == s'.calls && ["a"] + ["b"] == ["a", "b"];
    assert Swap(s.rows, TokenOf("a"), 0, "b", "b") == s'.rows;
    assert RevokeSeen(s'.rows, {"a"}, 0) == s'.rows && s'.calls - {2} == map[];
  }

  lemma LogoutSteps(i: nat)
    requires i < 7
    ensures LogoutStep(i)
  {
    LogoutStarts();
    LogoutIsOvertaken();
  }

  lemma LogoutIsRun() returns (tr: seq<State>)
    ensures IsRun(tr, LogoutActs()) && forall i :: 0 <= i < 7 ==> tr[i] == LogoutState(i)
  {
    LogoutSteps(6);
    tr := seq(7, i requires 0 <= i < 7 => LogoutState(i)) + [Apply(LogoutState(6), LogoutActs()[6])];
    forall i | 0 <= i < |LogoutActs()|
      ensures Enabled(tr[i], LogoutActs()[i]) && tr[i + 1] == Apply(tr[i], LogoutActs()[i])
    {
      LogoutSteps(i);
    }
  }

  /** A logout starts while a refresh is under way, and ends after it: the new token still refreshes. */
  lemma LogoutMissesRotation() returns (tr: seq<State>)
    ensures var acts := LogoutActs();
            && IsRun(tr, acts) && acts[2] == LogoutAll(2, "ann", 0) && acts[4].Finish? && acts[4].call == 2
            && "family" in tr[2].issued && 2 !in tr[5].calls && Refreshes(tr, acts, 6, TokenOf("b"))
  {
    tr := LogoutIsRun();
    assert tr[2] == LogoutState(2) && tr[5] == LogoutState(5) && tr[6] == LogoutState(6);
  }

  /** The states of a run of `ReuseActs`. */
  ghost function ReuseState(i: nat): State {
    var a, b, c := NewRow("ann", "family", "a", 0), NewRow("ann", "family", "b", 0), NewRow("ann", "family", "c", 0);
    var usedA := a.(revokedAt := Some(0), replacedById := Some("b"));
    var usedB := b.(revokedAt := Some(0), replacedById := Some("c"));
    var s1 := State(map["a" := a], map[], map["family" := ["a"]], {"a"});
    var s3 := State(map["a" := usedA, "b" := b], map[], map["family" := ["a", "b"]], {"a", "b"});
    var rows8 := map["a" := usedA, "b" := usedB, "c" := c];
    var s8 := State(rows8, map[], map["family" := ["a", "b", "c"]], {"a", "b", "c"});
    var revoke, update := Revoking("family", 0, Reused), Updating({"a", "b"}, 0);
    match i
    case 0 => State(map[], map[], map[], {})
    case 1 => s1
    case 2 => s1.(calls := map[1 := Rotating(TokenOf("a"), 0)])
    case 3 => s3
    case 4 => s3.(calls := map[2 := revoke])
    case 5 => s3.(calls := map[2 := revoke, 3 := Rotating(TokenOf("b"), 0)])
    case 6 => s3.(calls := map[2 := update, 3 := Rotating(TokenOf("b"), 0)])
    case 7 => s8.(calls := map[2 := update])
    case 8 => s8
    case _ => s8.(calls := map[4 := Rotating(TokenOf("c"), 0)])
  }

  ghost predicate ReuseStep(i: nat)
    requires i < 10
  {
    Enabled(ReuseState(i), ReuseActs()[i]) && (i < 9 ==> ReuseState(i + 1) == Apply(ReuseState(i), ReuseActs()[i]))
  }

  lemma ReuseRotates()
    ensures ReuseStep(0) && ReuseStep(1) && ReuseStep(2)
  {
    var s, s' := ReuseState(2), ReuseState(3);
    assert s.calls - {1} == map[] && Swap(s.rows, TokenOf("a"), 0, "b", "b") == s'.rows && ["a"] + ["b"] == ["a", "b"];
  }

  lemma ReuseIsSeen()
    ensures ReuseStep(3) && ReuseStep(4) && ReuseStep(5)
  {
    assert FamilyIds(ReuseState(5).rows, "family") == {"a", "b"};
  }

  lemma ReuseIsOvertaken()
    ensures ReuseStep(6)
  {
    var s, s' := ReuseState(6), ReuseState(7);
    assert s.calls - {3} == s'.calls && Swap(s.rows, TokenOf("b"), 0, "c", "c") == s'.rows;
    assert ["a", "b"] + ["c"] == ["a", "b", "c"] && {"a", "b"} + {"c"} == {"a", "b", "c"};
  }

  lemma ReuseIsOver()
    ensures ReuseStep(7) && ReuseStep(8) && ReuseStep(9)
  {
    var s := ReuseState(7);
    assert RevokeSeen(s.rows, {"a", "b"}, 0) == s.rows && s.calls - {2} == map[];
  }

  lemma ReuseSteps(i: nat)
    requires i < 10
    ensures ReuseStep(i)
  {
    ReuseRotates();
    ReuseIsSeen();
    ReuseIsOvertaken();
    ReuseIsOver();
  }

  lemma ReuseIsRun() returns (tr: seq<State>)
    ensures IsRun(tr, ReuseActs()) && forall i :: 0 <= i < 10 ==> tr[i] == ReuseState(i)
  {
    ReuseSteps(9);
    tr := seq(10, i requires 0 <= i < 10 => ReuseState(i)) + [Apply(ReuseState(9), ReuseActs()[9])];
    forall i | 0 <= i < |ReuseActs()|
      ensures Enabled(tr[i], ReuseActs()[i]) && tr[i + 1] == Apply(tr[i], ReuseActs()[i])
    {
      ReuseSteps(i);
    }
  }

  /** The same after a reuse: token "a" is shown again while a refresh of "b" is under way. The family is
      revoked, and goes on with "c". */
  lemma ReuseMissesRotation() returns (tr: seq<State>)
    ensures var acts := ReuseActs();
            && IsRun(tr, acts) && acts[3] == Begin(2, TokenOf("a"), 0)
            && "a" in tr[3].rows && tr[3].rows["a"].revokedAt.Some?
            && acts[7].Finish? && acts[7].call == 2 && 2 !in tr[8].calls && Refreshes(tr, acts, 9, TokenOf("c"))
  {
    tr := ReuseIsRun();
    assert tr[3] == ReuseState(3) && tr[8] == ReuseState(8) && tr[9] == ReuseState(9);
  }
}
