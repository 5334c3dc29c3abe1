/**
 * `ModerationService` over the keys and rows it changes: webhook deliveries, the automatic action,
 * and the decisions of moderators. It ends sessions through the session service, and shares the block
 * table and the queue's keys with the queue service.
 */
module ModerationService {
  import opened Redis
  import AutomaticBans
  import WebhookDedupe
  import Lifecycle = SessionLifecycle
  import Decisions = DecisionProtocol
  import Sessions = SessionService
  import Queue
  import Queues = QueueService

  type UserId = AutomaticBans.UserId
  type RowId = string

  datatype ActionType = Warn | Ban
  datatype ReportStatus = Open | Warned | BannedStatus
  datatype Report = Report(reporter: UserId, reported: UserId, status: ReportStatus)
  datatype AppealStatus = OpenAppeal | Upheld | Overturned
  datatype Appeal = Appeal(user: UserId, action: ActionType, status: AppealStatus)

  /** An absent or empty `userId` blames both participants. */
  datatype Payload = Payload(sessionId: Option<Lifecycle.SessionId>, userId: UserId, violation: bool)
  datatype Delivery = Delivery(signature: string, timestamp: string)

  datatype WebhookReply = MissingSessionId | Ignored | Failed | Acted
  datatype ReviewReply = NotFound | SelfBlock | AlreadyResolved | Done

  /** What an automatic action that nothing interrupts does to the two keys of its user. */
  function Automatic(k: AutomaticBans.Keys, u: UserId, count: nat, now: Time): AutomaticBans.Keys {
    if count < AutomaticBans.BAN_THRESHOLD || CellOf(k.cooldown, u).Live(now) then k
    else AutomaticBans.SetBan(
           k.(cooldown := k.cooldown[u := Cell((), now + AutomaticBans.BAN_RATE_LIMIT_MS)]), u, now)
  }

  /** After three or more events the user is banned exactly if the ban was live before, or the cooldown
      was not; nobody else's keys change. */
  lemma AutomaticOutcome(k: AutomaticBans.Keys, u: UserId, count: nat, now: Time)
    requires count >= AutomaticBans.BAN_THRESHOLD
    ensures var k' := Automatic(k, u, count, now);
            && CellOf(k'.cooldown, u).Live(now)
            && (CellOf(k'.ban, u).Live(now) <==> CellOf(k.ban, u).Live(now) || !CellOf(k.cooldown, u).Live(now))
            && forall v :: v != u ==> SameKeys(k', k, v)
  {
  }

  /** With three or more events and no live cooldown, the user cools down for a minute and is banned for a
      day; otherwise nothing is written. */
  lemma AutomaticWrites(k: AutomaticBans.Keys, u: UserId, events: seq<AutomaticBans.Event>, now: Time)
    ensures var k' := Automatic(k, u, AutomaticBans.Count(events, u, now), now);
            if |AutomaticBans.Recent(events, u, now)| >= 3 &&
               !(u in k.cooldown && k.cooldown[u].Cell? && now <= k.cooldown[u].expiresAt)
            then k'.cooldown == k.cooldown[u := Cell((), now + 60_000)] &&
                 k'.ban == k.ban[u := Cell((), now + 86_400_000)]
            else k' == k
  {
    AutomaticBans.CountIsCardinality(events, u, now);
  }

  /** It is the commands of `AutomaticBans` in a row. */
  lemma AutomaticIsItsCommands(s: AutomaticBans.State, c: nat, u: UserId)
    requires c !in s.calls
    ensures var s1 := AutomaticBans.Apply(s, AutomaticBans.CountEvents(c, u));
            var s2 := if c in s1.calls then AutomaticBans.Apply(s1, AutomaticBans.TakeCooldown(c)) else s1;
            var s3 := if c in s2.calls then AutomaticBans.Apply(s2, AutomaticBans.WriteBan(c)) else s2;
            s3.keys == Automatic(s.keys, u, AutomaticBans.Count(s.events, u, s.now), s.now) && s3.calls == s.calls
  {
  }

  /** The event rows that are written: those of users. */
  function EventsOf(us: seq<UserId>, users: set<UserId>, at: Time): seq<AutomaticBans.Event> {
    if us == [] then []
    else
      var u := us[|us| - 1];
      EventsOf(us[..|us| - 1], users, at) + if u in users then [AutomaticBans.Event(u, at)] else []
  }

  /** Each blamed user has an event now. */
  lemma {:induction false} EventsOfHas(us: seq<UserId>, users: set<UserId>, at: Time, u: UserId)
    ensures AutomaticBans.Event(u, at) in EventsOf(us, users, at) <==> u in us && u in users
  {
    if us != [] {
      EventsOfHas(us[..|us| - 1], users, at, u);
      assert us == us[..|us| - 1] + [us[|us| - 1]];
    }
  }

  lemma EventsOfOneOrTwo(a: UserId, b: UserId, users: set<UserId>, at: Time)
    ensures EventsOf([a], users, at) == if a in users then [AutomaticBans.Event(a, at)] else []
    ensures EventsOf([a, b], users, at) == EventsOf([a], users, at) + EventsOf([b], users, at)
  {
    assert [a][..0] == [] && [b][..0] == [] && [a, b][..1] == [a];
  }

  predicate SameKeys(k: AutomaticBans.Keys, k': AutomaticBans.Keys, u: UserId) {
    CellOf(k.ban, u) == CellOf(k'.ban, u) && CellOf(k.cooldown, u) == CellOf(k'.cooldown, u)
  }

  /** From `k0` to `k` the users `us` were punished for their events, and nobody else. */
  ghost predicate Punished(k: AutomaticBans.Keys, k0: AutomaticBans.Keys, events: seq<AutomaticBans.Event>,
                           us: seq<UserId>, now: Time)
  {
    forall u :: if u in us && AutomaticBans.Count(events, u, now) >= AutomaticBans.BAN_THRESHOLD then
                  && CellOf(k.cooldown, u).Live(now)
                  && (CellOf(k.ban, u).Live(now) <==> CellOf(k0.ban, u).Live(now) || !CellOf(k0.cooldown, u).Live(now))
                else SameKeys(k, k0, u)
  }

  lemma PunishedMore(k: AutomaticBans.Keys, k0: AutomaticBans.Keys, events: seq<AutomaticBans.Event>,
                     us: seq<UserId>, now: Time, v: UserId)
    requires Punished(k, k0, events, us, now)
    ensures Punished(Automatic(k, v, AutomaticBans.Count(events, v, now), now), k0, events, us + [v], now)
  {
    if AutomaticBans.Count(events, v, now) >= AutomaticBans.BAN_THRESHOLD {
      AutomaticOutcome(k, v, AutomaticBans.Count(events, v, now), now);
    }
  }

  /** The ban and the cooldown of everybody but the named user, or but the two participants if nobody is
      named, are as they were. */
  ghost predicate OnlyBlamed(k: AutomaticBans.Keys, k0: AutomaticBans.Keys, p: Payload, row: Decisions.Session) {
    forall u :: (if |p.userId| > 0 then u != p.userId else u != row.userA && u != row.userB) ==>
      CellOf(k.ban, u) == CellOf(k0.ban, u) && CellOf(k.cooldown, u) == CellOf(k0.cooldown, u)
  }

  lemma OthersUntouched(k: AutomaticBans.Keys, k0: AutomaticBans.Keys, us: seq<UserId>, p: Payload,
                        row: Decisions.Session)
    requires us == if |p.userId| > 0 then [p.userId] else [row.userA, row.userB]
    requires forall u :: u !in us ==> SameKeys(k, k0, u)
    ensures OnlyBlamed(k, k0, p, row)
  {
    forall u | if |p.userId| > 0 then u != p.userId else u != row.userA && u != row.userB
      ensures CellOf(k.ban, u) == CellOf(k0.ban, u) && CellOf(k.cooldown, u) == CellOf(k0.cooldown, u)
    {
      assert SameKeys(k, k0, u);
    }
  }

  class ModerationService {
    const sessionService: Sessions.SessionService
    const queue: Queues.QueueService  // its users are those with a balance
    var now: Time
    // Redis
    var keys: AutomaticBans.Keys
    var deliveries: map<WebhookDedupe.Key, Cell<()>>
    // tables
    var events: seq<AutomaticBans.Event>
    var reports: map<RowId, Report>
    var appeals: map<RowId, Appeal>

    constructor (at: Time, sessionService: Sessions.SessionService, queue: Queues.QueueService)
      ensures this.sessionService == sessionService && this.queue == queue
      ensures now == at && keys == AutomaticBans.Keys(map[], map[]) && deliveries == map[]
      ensures events == [] && reports == map[] && appeals == map[]
    {
      this.sessionService, this.queue := sessionService, queue;
      now, keys, deliveries := at, AutomaticBans.Keys(map[], map[]), map[];
      events, reports, appeals := [], map[], map[];
    }

    predicate Banned(u: UserId)
      reads this`keys, this`now
    {
      CellOf(keys.ban, u).Live(now)
    }

    predicate CoolingDown(u: UserId)
      reads this`keys, this`now
    {
      CellOf(keys.cooldown, u).Live(now)
    }

    method ReserveWebhookDelivery(d: Delivery) returns (accepted: bool)
      modifies this`deliveries
      ensures accepted <==> !CellOf(old(deliveries), WebhookDedupe.KeyOf(d.timestamp, d.signature)).Live(now)
      ensures deliveries == SetNx(old(deliveries), WebhookDedupe.KeyOf(d.timestamp, d.signature), (), now, 600_000)
    {
      var key := WebhookDedupe.KeyOf(d.timestamp, d.signature);
      if CellOf(deliveries, key).Live(now) {
        return false;
      }
      deliveries := deliveries[key := Cell((), now + WebhookDedupe.REPLAY_TTL_MS)];
      accepted := true;
    }

    method CountEvents(u: UserId) returns (n: nat)
      ensures n == AutomaticBans.Count(events, u, now)
    {
      n := 0;
      for i := 0 to |events|
        invariant n == AutomaticBans.Count(events[..i], u, now)
      {
        assert events[..i + 1][..i] == events[..i];
        var e := events[i];
        if e.user == u && now <= e.at + AutomaticBans.VIOLATION_WINDOW_MS {
          n := n + 1;
        }
      }
      assert events[..|events|] == events;
    }

    method ApplyModerationAction(u: UserId)
      modifies this`keys
      ensures keys == Automatic(old(keys), u, AutomaticBans.Count(events, u, now), now)
    {
      var count := CountEvents(u);
      if count >= AutomaticBans.BAN_THRESHOLD {
        if !CellOf(keys.cooldown, u).Live(now) {
          keys := keys.(cooldown := keys.cooldown[u := Cell((), now + AutomaticBans.BAN_RATE_LIMIT_MS)]);
          keys := AutomaticBans.SetBan(keys, u, now);
        }
      }
    }

    /** One event row for each offender who is a user; the insert for anybody else fails. */
    method LogEvents(offenders: seq<UserId>) returns (ok: bool)
      modifies this`events
      ensures ok <==> forall u :: u in offenders ==> u in queue.balance
      ensures events == old(events) + EventsOf(offenders, queue.balance.Keys, now)
    {
      ok := true;
      for i := 0 to |offenders|
        invariant ok <==> forall u :: u in offenders[..i] ==> u in queue.balance
        invariant events == old(events) + EventsOf(offenders[..i], queue.balance.Keys, now)
      {
        assert offenders[..i + 1] == offenders[..i] + [offenders[i]] && offenders[..i + 1][..i] == offenders[..i];
        if offenders[i] in queue.balance {
          events := events + [AutomaticBans.Event(offenders[i], now)];
        } else {
          ok := false;
        }
      }
      assert offenders[..|offenders|] == offenders;
    }

    /** All events are written before the first action, and without one that fails there is no action.
        Otherwise every offender with three or more events is banned exactly if banned before or not
        cooling down, and nobody else's keys change. */
    method PunishAll(offenders: seq<UserId>) returns (ok: bool)
      modifies this`keys, this`events
      ensures ok <==> forall u :: u in offenders ==> u in queue.balance
      ensures events == old(events) + EventsOf(offenders, queue.balance.Keys, now)
      ensures !ok ==> keys == old(keys)
      ensures ok ==>
                forall u :: u in offenders && AutomaticBans.Count(events, u, now) >= AutomaticBans.BAN_THRESHOLD ==>
                  CoolingDown(u) && (Banned(u) <==> old(Banned(u)) || !old(CoolingDown(u)))
      ensures forall u :: u !in offenders || AutomaticBans.Count(events, u, now) < AutomaticBans.BAN_THRESHOLD ==>
                SameKeys(keys, old(keys), u)
    {
      ok := LogEvents(offenders);
      if !ok {
        return;
      }
      ActOnAll(offenders);
    }

    method ActOnAll(offenders: seq<UserId>)
      modifies this`keys
      ensures Punished(keys, old(keys), events, offenders, now)
    {
      for i := 0 to |offenders|
        invariant Punished(keys, old(keys), events, offenders[..i], now)
      {
        assert offenders[..i + 1] == offenders[..i] + [offenders[i]];
        PunishedMore(keys, old(keys), events, offenders[..i], now, offenders[i]);
        ApplyModerationAction(offenders[i]);
      }
      assert offenders[..|offenders|] == offenders;
    }

    /** The user the webhook names, or else both participants. */
    method PunishBlamed(p: Payload) returns (ok: bool)
      requires p.sessionId.Some? && p.sessionId.value in sessionService.rows
      modifies this`keys, this`events
      ensures ok <==> forall u :: u in Offenders(p) ==> u in queue.balance
      ensures events == old(events) + EventsOf(Offenders(p), queue.balance.Keys, now)
      ensures !ok ==> keys == old(keys)
      ensures ok ==>
                forall u :: u in Offenders(p) && AutomaticBans.Count(events, u, now) >= AutomaticBans.BAN_THRESHOLD ==>
                  (Banned(u) <==> old(Banned(u)) || !old(CoolingDown(u)))
      ensures BlamesRight(p, old(events), old(keys))
    {
      BlamedOnly(p);
      ok := PunishAll(Offenders(p));
      OthersUntouched(keys, old(keys), Offenders(p), p, sessionService.rows[p.sessionId.value]);
    }

    /** Punishes and ends the session, or fails without an action. */
    method ActOn(p: Payload) returns (ok: bool)
      requires p.sessionId.Some? && p.sessionId.value in sessionService.rows
      modifies this`keys, this`events, sessionService`sessions
      ensures ok <==> forall u :: u in Offenders(p) ==> u in queue.balance
      ensures events == old(events) + EventsOf(Offenders(p), queue.balance.Keys, now)
      ensures !ok ==> keys == old(keys) && sessionService.sessions == old(sessionService.sessions)
      ensures ok ==>
                forall u :: u in Offenders(p) && AutomaticBans.Count(events, u, now) >= AutomaticBans.BAN_THRESHOLD ==>
                  (Banned(u) <==> old(Banned(u)) || !old(CoolingDown(u)))
      ensures BlamesRight(p, old(events), old(keys))
      ensures ok ==>
                var id := p.sessionId.value;
                && sessionService.Of(id).keys.ended.Live(sessionService.now)
                && sessionService.sessions
                   == Lifecycle.PutIn(old(sessionService.sessions), id,
                                      Lifecycle.End(old(sessionService.Of(id)), sessionService.now))
    {
      ok := PunishBlamed(p);
      if ok {
        sessionService.EndSession(p.sessionId.value);
      }
    }

    /** `delivery` is absent when the caller has no signature or timestamp. A webhook that acts ends the
        session; any other leaves it alone. One that blames somebody who is not a user fails after its
        delivery was reserved, so that it is ignored when it is sent again within ten minutes. */
    method HandleWebhook(p: Payload, delivery: Option<Delivery>) returns (r: WebhookReply)
      modifies this`keys, this`events, this`deliveries, sessionService`sessions
      ensures r.MissingSessionId? <==> p.sessionId.None?
      ensures r.Acted? || r.Failed? <==>
                p.sessionId.Some? && p.violation && p.sessionId.value in sessionService.rows &&
                (delivery.Some? ==>
                   var d := delivery.value;
                   !CellOf(old(deliveries), WebhookDedupe.KeyOf(d.timestamp, d.signature)).Live(now))
      ensures r.Acted? ==> forall u :: u in Offenders(p) ==> u in queue.balance
      ensures r.Failed? ==> exists u :: u in Offenders(p) && u !in queue.balance
      ensures !r.Acted? ==> keys == old(keys) && sessionService.sessions == old(sessionService.sessions)
      ensures events == if r.Acted? || r.Failed? then old(events) + EventsOf(Offenders(p), queue.balance.Keys, now)
                        else old(events)
      ensures delivery.Some? && !r.MissingSessionId? ==>
                CellOf(deliveries, WebhookDedupe.KeyOf(delivery.value.timestamp, delivery.value.signature)).Live(now)
      ensures r.Acted? ==>
                forall u :: u in Offenders(p) && AutomaticBans.Count(events, u, now) >= AutomaticBans.BAN_THRESHOLD ==>
                  (Banned(u) <==> old(Banned(u)) || !old(CoolingDown(u)))
      ensures r.Acted? || r.Failed? ==> BlamesRight(p, old(events), old(keys))
      ensures !r.Acted? && !r.Failed? ==> events == old(events)
      ensures r.Acted? ==>
                var id := p.sessionId.value;
                && sessionService.Of(id).keys.ended.Live(sessionService.now)
                && sessionService.sessions
                   == Lifecycle.PutIn(old(sessionService.sessions), id,
                                      Lifecycle.End(old(sessionService.Of(id)), sessionService.now))
    {
      if p.sessionId.None? {
        return MissingSessionId;
      }
      if delivery.Some? {
        var accepted := ReserveWebhookDelivery(delivery.value);
        if !accepted {
          return Ignored;
        }
      }
      if !p.violation || p.sessionId.value !in sessionService.rows {
        return Ignored;
      }
      var acted := ActOn(p);
      r := if acted then Acted else Failed;
    }

    /** The row of one event, now, if the user is there. */
    function EventOf(u: UserId): seq<AutomaticBans.Event>
      reads this`now, queue`balance
    {
      if u in queue.balance then [AutomaticBans.Event(u, now)] else []
    }

    /** One more event for the named user, or one for each participant if nobody is named, and nobody
        else's keys have changed. */
    ghost predicate BlamesRight(p: Payload, events0: seq<AutomaticBans.Event>, keys0: AutomaticBans.Keys)
      reads this, queue`balance, sessionService`rows
    {
      && p.sessionId.Some? && p.sessionId.value in sessionService.rows
      && var row := sessionService.rows[p.sessionId.value];
      && events == events0 + (if |p.userId| > 0 then EventOf(p.userId) else EventOf(row.userA) + EventOf(row.userB))
      && OnlyBlamed(keys, keys0, p, row)
    }

    /** Who is blamed: the user the webhook names, or else both participants. */
    lemma BlamedOnly(p: Payload)
      requires p.sessionId.Some? && p.sessionId.value in sessionService.rows
      ensures var row := sessionService.rows[p.sessionId.value];
              && Offenders(p) == (if |p.userId| > 0 then [p.userId] else [row.userA, row.userB])
              && EventsOf(Offenders(p), queue.balance.Keys, now)
                 == if |p.userId| > 0 then EventOf(p.userId) else EventOf(row.userA) + EventOf(row.userB)
    {
      var row := sessionService.rows[p.sessionId.value];
      EventsOfOneOrTwo(row.userA, row.userB, queue.balance.Keys, now);
      EventsOfOneOrTwo(row.userB, row.userB, queue.balance.Keys, now);
      EventsOfOneOrTwo(p.userId, p.userId, queue.balance.Keys, now);
    }

    function Offenders(p: Payload): seq<UserId>
      reads sessionService`rows
    {
      if p.userId != "" then [p.userId]
      else if p.sessionId.Some? && p.sessionId.value in sessionService.rows then
        var s := sessionService.rows[p.sessionId.value];
        [s.userA, s.userB]
      else []
    }

    /** A block that was not active already, new or lifted, takes the blocked user out of the queue. */
    method CreateBlock(blocker: UserId, blocked: UserId) returns (ok: bool)
      modifies queue`blocks, queue`zsets, queue`entries
      ensures ok <==> blocker != blocked
      ensures queue.blocks == if ok then old(queue.blocks) + {(blocker, blocked)} else old(queue.blocks)
      ensures queue.KeysView() == if ok && (blocker, blocked) !in old(queue.blocks)
                                  then Queue.Remove(old(queue.View()), blocked).keys else old(queue.KeysView())
    {
      if blocker == blocked {
        return false;
      }
      if (blocker, blocked) !in queue.blocks {
        queue.blocks := queue.blocks + {(blocker, blocked)};
        queue.RemoveFromQueueIfPresent(blocked);
      }
      ok := true;
    }

    /** A moderator's ban is written whatever the cooldown says, and lasts a full day from now. Either
        action blocks the reported user for the reporter, and, unless that block was active already, takes
        them out of the queue without refund. */
    method ResolveReport(id: RowId, action: ActionType) returns (r: ReviewReply)
      modifies this`reports, this`keys, queue`blocks, queue`zsets, queue`entries
      ensures r.NotFound? <==> id !in old(reports)
      ensures r.NotFound? ==> reports == old(reports) && keys == old(keys)
      ensures r.Done? || r.SelfBlock? || r.NotFound?
      ensures !r.Done? ==> queue.View() == old(queue.View())
      ensures !r.NotFound? ==>
                var report := old(reports)[id];
                && reports == old(reports)[id := report.(status := if action.Ban? then BannedStatus else Warned)]
                && (r.Done? <==> report.reporter != report.reported)
      ensures r.Done? ==>
                var report := old(reports)[id];
                && Queue.Blocked(queue.View().db, report.reporter, report.reported)
                && queue.blocks == old(queue.blocks) + {(report.reporter, report.reported)}
                && queue.KeysView()
                   == (if (report.reporter, report.reported) in old(queue.blocks) then old(queue.KeysView())
                       else Queue.Remove(old(queue.View()), report.reported).keys)
                && (action.Warn? ==> keys == old(keys))
                && (action.Ban? ==>
                      && keys.cooldown == old(keys).cooldown
                      && keys.ban == old(keys).ban[report.reported := Cell((), now + 86_400_000)]
                      && Banned(report.reported))
      ensures r.SelfBlock? ==> keys == old(keys)
    {
      if id !in reports {
        return NotFound;
      }
      var report := reports[id];
      reports := reports[id := report.(status := if action.Ban? then BannedStatus else Warned)];
      var blocked := CreateBlock(report.reporter, report.reported);
      if !blocked {
        return SelfBlock;
      }
      if action.Ban? {
        keys := AutomaticBans.SetBan(keys, report.reported, now);
      }
      r := Done;
    }

    /** Only an overturned ban appeal lifts a ban; the cooldown stays. */
    method ResolveAppeal(id: RowId, overturn: bool) returns (r: ReviewReply)
      modifies this`appeals, this`keys
      ensures r.NotFound? <==> id !in old(appeals)
      ensures r.AlreadyResolved? <==> id in old(appeals) && !old(appeals)[id].status.OpenAppeal?
      ensures r.NotFound? || r.AlreadyResolved? || r.Done?
      ensures !r.Done? ==> appeals == old(appeals) && keys == old(keys)
      ensures r.Done? ==>
                var a := old(appeals)[id];
                && appeals == old(appeals)[id := a.(status := if overturn then Overturned else Upheld)]
                && keys.cooldown == old(keys).cooldown
                && keys.ban == (if overturn && a.action.Ban? then old(keys).ban - {a.user} else old(keys).ban)
                && (overturn && a.action.Ban? ==> !Banned(a.user))
    {
      if id !in appeals {
        return NotFound;
      }
      var existing := appeals[id];
      if existing.status != OpenAppeal {
        return AlreadyResolved;
      }
      appeals := appeals[id := existing.(status := if overturn then Overturned else Upheld)];
      if overturn && existing.action == Ban {
        keys := keys.(ban := keys.ban - {existing.user});
      }
      r := Done;
    }
  }
}
