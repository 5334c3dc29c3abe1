/**
 * Automatic bans one Redis command at a time: an automatic action takes the 60 s cooldown with
 * SET NX, and only the call that got it writes the 24 h ban, in a second command. Moderators set the
 * same ban key, and an overturned appeal deletes it.
 */
module AutomaticBans {
  import opened Redis

  type UserId = string

  const BAN_TTL_MS: nat := 24 * 60 * 60 * 1000
  const BAN_RATE_LIMIT_MS: nat := 60 * 1000
  const VIOLATION_WINDOW_MS: nat := 24 * 60 * 60 * 1000
  const BAN_THRESHOLD: nat := 3

  datatype Event = Event(user: UserId, at: Time)

  /** How many of the events are the user's and not older than the window. */
  function Count(events: seq<Event>, u: UserId, now: Time): nat {
    if events == [] then 0
    else
      var e := events[|events| - 1];
      Count(events[..|events| - 1], u, now) + if e.user == u && now <= e.at + VIOLATION_WINDOW_MS then 1 else 0
  }

  /** The positions of the user's events of the last 24 hours. */
  ghost function Recent(events: seq<Event>, u: UserId, now: Time): set<nat> {
    set i | 0 <= i < |events| && events[i].user == u && now <= events[i].at + 86_400_000
  }

  /** Each counts once. */
  lemma {:induction false} CountIsCardinality(events: seq<Event>, u: UserId, now: Time)
    ensures Count(events, u, now) == |Recent(events, u, now)|
  {
    if events != [] {
      var n := |events| - 1;
      CountIsCardinality(events[..n], u, now);
      var last: set<nat> := if events[n].user == u && now <= events[n].at + 86_400_000 then {n} else {};
      assert Recent(events, u, now) == Recent(events[..n], u, now) + last;
    }
  }

  /** A call of `applyModerationAction` between its commands. */
  datatype Call = Cooling(user: UserId) | Banning(user: UserId)

  datatype Keys = Keys(ban: map<UserId, Cell<()>>, cooldown: map<UserId, Cell<()>>)

  /** `overturned` is the history: when a ban appeal of the user was last overturned. */
  datatype State = State(
    now: Time, keys: Keys, events: seq<Event>, calls: map<nat, Call>, overturned: map<UserId, Time>)

  datatype Action =
    | Tick(d: nat)
    | LogEvent(user: UserId)
    | CountEvents(call: nat, user: UserId)
    | TakeCooldown(call: nat)
    | WriteBan(call: nat)
    | ModeratorBans(user: UserId)
    | OverturnBan(user: UserId)

  predicate Enabled(s: State, a: Action) {
    match a
    case CountEvents(c, _) => c !in s.calls
    case TakeCooldown(c) => c in s.calls && s.calls[c].Cooling?
    case WriteBan(c) => c in s.calls && s.calls[c].Banning?
    case _ => true
  }

  predicate Banned(s: State, u: UserId) { CellOf(s.keys.ban, u).Live(s.now) }

  predicate CoolingDown(s: State, u: UserId) { CellOf(s.keys.cooldown, u).Live(s.now) }

  function SetBan(k: Keys, u: UserId, now: Time): Keys {
    k.(ban := k.ban[u := Cell((), now + BAN_TTL_MS)])
  }

  function Apply(s: State, a: Action): State
    requires Enabled(s, a)
  {
    match a
    case Tick(d) => s.(now := s.now + d)
    case LogEvent(u) => s.(events := s.events + [Event(u, s.now)])
    case CountEvents(c, u) =>
      if Count(s.events, u, s.now) < BAN_THRESHOLD then s else s.(calls := s.calls[c := Cooling(u)])
    case TakeCooldown(c) =>
      var u := s.calls[c].user;
      if CoolingDown(s, u) then s.(calls := s.calls - {c})
      else s.(keys := s.keys.(cooldown := SetNx(s.keys.cooldown, u, (), s.now, BAN_RATE_LIMIT_MS)),
              calls := s.calls[c := Banning(u)])
    case WriteBan(c) =>
      s.(keys := SetBan(s.keys, s.calls[c].user, s.now), calls := s.calls - {c})
    case ModeratorBans(u) => s.(keys := SetBan(s.keys, u, s.now))
    case OverturnBan(u) =>
      s.(keys := s.keys.(ban := s.keys.ban - {u}), overturned := s.overturned[u := s.now])
  }

  ghost predicate IsRun(tr: seq<State>, acts: seq<Action>) {
    && |tr| == |acts| + 1
    && tr[0].keys == Keys(map[], map[]) && tr[0].calls == map[] && tr[0].overturned == map[]
    && forall i :: 0 <= i < |acts| ==> Enabled(tr[i], acts[i]) && tr[i + 1] == Apply(tr[i], acts[i])
  }

  ghost predicate BanComing(s: State, u: UserId) {
    exists c :: c in s.calls && s.calls[c] == Banning(u)
  }

  /** An appeal was overturned after the cooldown was taken. */
  predicate OverturnedSince(s: State, u: UserId) {
    u in s.overturned && CellOf(s.keys.cooldown, u).Cell? &&
    CellOf(s.keys.cooldown, u).expiresAt <= s.overturned[u] + BAN_RATE_LIMIT_MS
  }

  /** The ban outlives the cooldown. */
  ghost predicate Covered(s: State, u: UserId) {
    CellOf(s.keys.cooldown, u).Cell? ==>
      || (CellOf(s.keys.ban, u).Cell? && CellOf(s.keys.cooldown, u).expiresAt <= CellOf(s.keys.ban, u).expiresAt)
      || BanComing(s, u)
      || OverturnedSince(s, u)
  }

  ghost predicate Inv(s: State) {
    forall u :: CellOf(s.keys.cooldown, u).Cell? ==>
      CellOf(s.keys.cooldown, u).expiresAt <= s.now + BAN_RATE_LIMIT_MS && Covered(s, u)
  }

  lemma StepKeepsCover(s: State, a: Action, u: UserId)
    requires Inv(s) && Enabled(s, a)
    ensures CellOf(Apply(s, a).keys.cooldown, u).Cell? ==>
              CellOf(Apply(s, a).keys.cooldown, u).expiresAt <= Apply(s, a).now + BAN_RATE_LIMIT_MS &&
              Covered(Apply(s, a), u)
  {
    var s' := Apply(s, a);
    if BanComing(s, u) && !(a.WriteBan? && s.calls[a.call].user == u) {
      var c :| c in s.calls && s.calls[c] == Banning(u);
      assert c in s'.calls && s'.calls[c] == Banning(u);
    }
    if a.TakeCooldown? && s.calls[a.call].user == u && !CoolingDown(s, u) {
      assert s'.calls[a.call] == Banning(u);
    }
    assert CellOf(s.keys.cooldown, u).Cell? ==> Covered(s, u);
  }

  lemma {:induction false} RunInv(tr: seq<State>, acts: seq<Action>, k: nat)
    requires IsRun(tr, acts) && k < |tr|
    ensures Inv(tr[k])
  {
    if k > 0 {
      RunInv(tr, acts, k - 1);
      forall u | CellOf(tr[k].keys.cooldown, u).Cell?
        ensures CellOf(tr[k].keys.cooldown, u).expiresAt <= tr[k].now + BAN_RATE_LIMIT_MS && Covered(tr[k], u)
      {
        StepKeepsCover(tr[k - 1], acts[k - 1], u);
      }
    }
  }

  // ---- Main results ----

  /** A live cooldown implies a live ban, unless the call that took it has yet to write it, or a ban
      appeal of the user was overturned since. */
  lemma CooldownImpliesBan(tr: seq<State>, acts: seq<Action>, k: nat, u: UserId)
    requires IsRun(tr, acts) && k < |tr| && CoolingDown(tr[k], u)
    ensures Banned(tr[k], u) || BanComing(tr[k], u) || OverturnedSince(tr[k], u)
  {
    RunInv(tr, acts, k);
  }

  /** A call that got the cooldown and is over, or that was suppressed. */
  predicate Returns(s: State, a: Action, u: UserId)
    requires Enabled(s, a)
  {
    (a.WriteBan? && s.calls[a.call].user == u) || (a.TakeCooldown? && s.calls[a.call].user == u && CoolingDown(s, u))
  }

  /** In a run in which no ban appeal of the user is overturned, an automatic action that saw enough
      events returns with the user banned, exactly unless it was suppressed and the ban was not live
      when it read the cooldown. That takes another call of the user between its two commands, which
      got the cooldown at most a minute ago; without one, the user is banned. */
  lemma ThreeEventsBan(tr: seq<State>, acts: seq<Action>, k: nat, u: UserId)
    requires IsRun(tr, acts) && k < |acts| && Returns(tr[k], acts[k], u)
    requires forall i :: 0 <= i < k ==> acts[i] != OverturnBan(u)
    ensures Banned(tr[k + 1], u) <==> acts[k].WriteBan? || Banned(tr[k], u)
    ensures !BanComing(tr[k], u) ==> Banned(tr[k + 1], u)
    ensures !Banned(tr[k + 1], u) ==>
              BanComing(tr[k + 1], u) &&
              CellOf(tr[k + 1].keys.cooldown, u).expiresAt <= tr[k + 1].now + BAN_RATE_LIMIT_MS
  {
    if acts[k].TakeCooldown? {
      NeverOverturned(tr, acts, k + 1, u);
      CooldownImpliesBan(tr, acts, k + 1, u);
      RunInv(tr, acts, k + 1);
      if BanComing(tr[k + 1], u) {
        var c :| c in tr[k + 1].calls && tr[k + 1].calls[c] == Banning(u);
        assert tr[k].calls[c] == Banning(u);
      }
    } else {
      assert tr[k].calls[acts[k].call] == Banning(u);
    }
  }

  /** Two calls of a user with three events: the second is suppressed between the commands of the
      first, and returns with the user not banned. */
  lemma SuppressedWhileBanPending(u: UserId)
    ensures exists tr: seq<State>, acts ::
              IsRun(tr, acts) && |tr| == 5 && acts[3] == TakeCooldown(1) && tr[3].calls[1] == Cooling(u) &&
              (forall i :: 0 <= i < 4 ==> acts[i] != OverturnBan(u)) &&
              Count(tr[3].events, u, tr[3].now) >= BAN_THRESHOLD && Returns(tr[3], acts[3], u) && !Banned(tr[4], u)
  {
    ThreeNow(u, 0);
    var events := [Event(u, 0), Event(u, 0), Event(u, 0)];
    var cooling := map[u := Cell((), BAN_RATE_LIMIT_MS)];
    var tr := [
      State(0, Keys(map[], map[]), events, map[], map[]),
      State(0, Keys(map[], map[]), events, map[0 := Cooling(u)], map[]),
      State(0, Keys(map[], cooling), events, map[0 := Banning(u)], map[]),
      State(0, Keys(map[], cooling), events, map[0 := Banning(u), 1 := Cooling(u)], map[]),
      State(0, Keys(map[], cooling), events, map[0 := Banning(u)], map[])];
    var acts := [CountEvents(0, u), TakeCooldown(0), CountEvents(1, u), TakeCooldown(1)];
    assert tr[1] == Apply(tr[0], acts[0]) && tr[2] == Apply(tr[1], acts[1]);
    assert tr[3] == Apply(tr[2], acts[2]) && tr[4] == Apply(tr[3], acts[3]);
    assert IsRun(tr, acts);
  }

  /** A call that never continues after its SET NX, because its process crashed: the cooldown lapses,
      and a user with three events was not banned at any time. */
  lemma AbandonedBan(u: UserId, d: nat)
    requires d > BAN_RATE_LIMIT_MS
    ensures exists tr: seq<State>, acts ::
              IsRun(tr, acts) && |tr| == 4 && acts == [CountEvents(0, u), TakeCooldown(0), Tick(d)] &&
              Count(tr[0].events, u, tr[0].now) >= BAN_THRESHOLD &&
              !CoolingDown(tr[3], u) && forall i :: 0 <= i < 4 ==> !Banned(tr[i], u)
  {
    ThreeNow(u, 0);
    var events := [Event(u, 0), Event(u, 0), Event(u, 0)];
    var cooling := map[u := Cell((), BAN_RATE_LIMIT_MS)];
    var tr := [
      State(0, Keys(map[], map[]), events, map[], map[]),
      State(0, Keys(map[], map[]), events, map[0 := Cooling(u)], map[]),
      State(0, Keys(map[], cooling), events, map[0 := Banning(u)], map[]),
      State(d, Keys(map[], cooling), events, map[0 := Banning(u)], map[])];
    var acts := [CountEvents(0, u), TakeCooldown(0), Tick(d)];
    assert tr[1] == Apply(tr[0], acts[0]) && tr[2] == Apply(tr[1], acts[1]) && tr[3] == Apply(tr[2], acts[2]);
    assert IsRun(tr, acts);
  }

  lemma {:induction false} NeverOverturned(tr: seq<State>, acts: seq<Action>, k: nat, u: UserId)
    requires IsRun(tr, acts) && k < |tr|
    requires forall i :: 0 <= i < k ==> acts[i] != OverturnBan(u)
    ensures u !in tr[k].overturned
  {
    if k > 0 {
      NeverOverturned(tr, acts, k - 1, u);
    }
  }

  lemma ThreeNow(u: UserId, now: Time)
    ensures Count([Event(u, now), Event(u, now), Event(u, now)], u, now) == 3
  {
    var e := Event(u, now);
    assert [e][..0] == [] && [e, e][..1] == [e] && [e, e, e][..2] == [e, e];
    assert Count([e], u, now) == 1 && Count([e, e], u, now) == 2;
  }

  /** The run of `SuppressedAfterOverturn`: three events, a ban, its end by an appeal, a fourth call. */
  ghost function OverturnedRun(u: UserId): seq<State> {
    var events := [Event(u, 0), Event(u, 0), Event(u, 0)];
    var banned, cooling := map[u := Cell((), BAN_TTL_MS)], map[u := Cell((), BAN_RATE_LIMIT_MS)];
    [State(0, Keys(map[], map[]), events, map[], map[]),
     State(0, Keys(map[], map[]), events, map[0 := Cooling(u)], map[]),
     State(0, Keys(map[], cooling), events, map[0 := Banning(u)], map[]),
     State(0, Keys(banned, cooling), events, map[], map[]),
     State(0, Keys(map[], cooling), events, map[], map[u := 0]),
     State(0, Keys(map[], cooling), events, map[1 := Cooling(u)], map[u := 0]),
     State(0, Keys(map[], cooling), events, map[], map[u := 0])]
  }

  function OverturnedActs(u: UserId): seq<Action> {
    [CountEvents(0, u), TakeCooldown(0), WriteBan(0), OverturnBan(u), CountEvents(1, u), TakeCooldown(1)]
  }

  lemma OverturnedSteps(u: UserId, i: nat)
    requires i < 6
    ensures Enabled(OverturnedRun(u)[i], OverturnedActs(u)[i])
    ensures OverturnedRun(u)[i + 1] == Apply(OverturnedRun(u)[i], OverturnedActs(u)[i])
  {
    ThreeNow(u, 0);
  }

  /** An appeal overturned within the minute: the next event finds the cooldown, and nothing bans. */
  lemma SuppressedAfterOverturn(u: UserId)
    ensures exists tr: seq<State>, acts ::
              IsRun(tr, acts) && |tr| == 7 && acts[5] == TakeCooldown(1) && tr[5].calls == map[1 := Cooling(u)] &&
              Count(tr[5].events, u, tr[5].now) >= BAN_THRESHOLD && !Banned(tr[6], u) && tr[6].calls == map[]
  {
    ThreeNow(u, 0);
    var tr, acts := OverturnedRun(u), OverturnedActs(u);
    forall i | 0 <= i < |acts|
      ensures Enabled(tr[i], acts[i]) && tr[i + 1] == Apply(tr[i], acts[i])
    {
      OverturnedSteps(u, i);
    }
    assert IsRun(tr, acts);
  }
}
