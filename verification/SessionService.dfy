/**
 * `SessionService` itself: Redis keys, session rows, match rows and the two timer maps as a field
 * the methods update, each method proved against the operations of
 * `SessionLifecycle`. A session's entry holds its Redis keys and its slots in the `timers` and
 * `choiceTimers` maps.
 */
module SessionService {
  import opened Redis
  import opened SessionLifecycle
  import Outcomes = SessionOutcomes
  import Text
  import D = DecisionProtocol

  const RECOVERY_MAX_KEYS: nat := 10_000
  const RECOVERY_MAX_DURATION_MS: nat := 5_000

  /** One reply to SCAN, with the time spent scanning when it has been read. Cursor 0 ends the scan. */
  datatype Page = Page(next: nat, keys: seq<SessionId>, elapsed: nat)

  /** The replies of one whole SCAN iteration. */
  ghost predicate WholeScan(pages: seq<Page>) {
    && |pages| > 0 && pages[|pages| - 1].next == 0
    && forall i :: 0 <= i < |pages| - 1 ==> pages[i].next != 0
  }

  ghost predicate Distinct(keys: seq<SessionId>) {
    forall i, j :: 0 <= i < j < |keys| ==> keys[i] != keys[j]
  }

  /** `scanKeys`: distinct keys, all of those in the replies unless the scan is reported truncated,
      which takes ten thousand keys or five seconds. */
  method ScanKeys(pages: seq<Page>) returns (keys: seq<SessionId>, truncated: bool)
    requires WholeScan(pages)
    ensures Distinct(keys) && |keys| <= RECOVERY_MAX_KEYS
    ensures forall k :: k in keys ==> exists i :: 0 <= i < |pages| && k in pages[i].keys
    ensures !truncated ==> forall i, k :: 0 <= i < |pages| && k in pages[i].keys ==> k in keys
    ensures truncated ==>
      |keys| == 10_000 || exists i :: 0 <= i < |pages| && pages[i].elapsed >= 5_000
  {
    keys, truncated := [], false;
    var n := 0;
    while true
      invariant 0 <= n < |pages| && !truncated
      invariant Distinct(keys) && |keys| <= RECOVERY_MAX_KEYS
      invariant forall k :: k in keys ==> exists i :: 0 <= i < n && k in pages[i].keys
      invariant forall i, k :: 0 <= i < n && k in pages[i].keys ==> k in keys
      decreases |pages| - n
    {
      var page := pages[n];
      var m := 0;
      while m < |page.keys|
        invariant 0 <= m <= |page.keys| && !truncated
        invariant Distinct(keys) && |keys| <= RECOVERY_MAX_KEYS
        invariant forall k :: k in keys ==> exists i :: 0 <= i <= n && k in pages[i].keys
        invariant forall i, k :: 0 <= i < n && k in pages[i].keys ==> k in keys
        invariant forall j :: 0 <= j < m ==> page.keys[j] in keys
      {
        if |keys| >= RECOVERY_MAX_KEYS {
          truncated := true;
          break;
        }
        if page.keys[m] !in keys {
          keys := keys + [page.keys[m]];
        }
        m := m + 1;
      }
      n := n + 1;
      if truncated || page.elapsed >= RECOVERY_MAX_DURATION_MS {
        truncated := true;
        break;
      }
      if page.next == 0 {
        break;
      }
    }
  }

  datatype Response = NotFound | Forbidden | Replied(reply: Reply)

  /** A pass handles the scanned keys in order, up to the first one reached after five seconds. */
  ghost predicate PassEnd(scanned: seq<SessionId>, scanTruncated: bool, elapsed: nat -> nat,
                          stop: nat, truncated: bool)
  {
    && stop <= |scanned|
    && (forall j :: 0 <= j < stop ==> elapsed(j) < 5_000)
    && (stop < |scanned| ==> elapsed(stop) >= 5_000)
    && (truncated <==> scanTruncated || stop < |scanned|)
  }

  ghost predicate InPages(pages: seq<Page>, id: SessionId) {
    exists i :: 0 <= i < |pages| && id in pages[i].keys
  }

  /** `s'` and `reply` are what a submission may lead to, whatever id its match row has. */
  ghost predicate SubmitAllows(s: Status, now: Time, users: D.Session, user: UserId, choice: Choice,
                               s': Status, reply: Reply)
  {
    exists m :: Submit(s, now, users, user, choice, m) == (s', reply)
  }

  type Matches = map<(UserId, UserId), D.MatchId>

  /** The answer is mutual, and no decision was there before. */
  ghost predicate NewlyMutual(s: Status, now: Time, reply: Reply) {
    !s.keys.decision.Live(now) && reply.Resolved? && reply.outcome.Mutual?
  }

  /** The outcome names the row of the two users, whichever way round. */
  ghost predicate MatchRow(matches: Matches, users: D.Session, o: Outcome)
    requires o.Mutual?
  {
    var p := Text.CanonicalPair(users.userA, users.userB);
    p in matches && matches[p] == o.matchId
  }

  /** Match rows are only ever added. */
  ghost predicate RowsKept(m: Matches, m': Matches) {
    forall p :: p in m ==> p in m' && m'[p] == m[p]
  }

  class SessionService {
    var now: Time
    var sessions: map<SessionId, Status>
    var rows: map<SessionId, D.Session>
    var matches: Matches

    constructor (at: Time)
      ensures now == at && sessions == map[] && rows == map[] && matches == map[]
    {
      now, sessions, rows, matches := at, map[], map[], map[];
    }

    function Of(id: SessionId): Status
      reads this`sessions
    {
      AtIn(sessions, id)
    }

    method EnsureChoiceDeadline(id: SessionId) returns (deadline: Time)
      modifies this`sessions
      ensures deadline == DeadlineOf(old(Of(id)).keys, now)
      ensures var s := old(Of(id)); sessions == PutIn(old(sessions), id, s.(keys := EnsureDeadline(s.keys, now)))
    {
      var s := Of(id);
      if s.keys.deadline.Live(now) {
        return s.keys.deadline.value;
      }
      deadline := now + D.CHOICE_WINDOW_MS;
      sessions := sessions[id := s.(keys := s.keys.(deadline := Cell(deadline, now + D.CHOICE_STATE_TTL_MS)))];
    }

    method ScheduleSessionEnd(id: SessionId, endAt: Time)
      modifies this`sessions
      ensures sessions == PutIn(old(sessions), id, old(Of(id)).(endTimer := Some(endAt)))
    {
      sessions := PutIn(sessions, id, Of(id).(endTimer := Some(endAt)));
    }

    method ScheduleChoiceTimeout(id: SessionId, deadline: Time)
      modifies this`sessions
      ensures sessions == PutIn(old(sessions), id, old(Of(id)).(choiceTimer := Some(deadline)))
    {
      sessions := PutIn(sessions, id, Of(id).(choiceTimer := Some(deadline)));
    }

    method EndSession(id: SessionId)
      modifies this`sessions
      ensures sessions == PutIn(old(sessions), id, End(old(Of(id)), now))
    {
      var s := Of(id);
      if s.keys.ended.Live(now) {
        return;
      }
      sessions := sessions[id := s.(keys := s.keys.(ended := Cell((), now + D.SESSION_STATE_TTL_MS)),
                                    endTimer := None,
                                    sent := s.sent.(ends := s.sent.ends + 1))];
      var deadline := EnsureChoiceDeadline(id);
      ScheduleChoiceTimeout(id, deadline);
    }

    method PersistSessionState(id: SessionId, users: D.Session, endAt: Time)
      modifies this`sessions
      ensures var s := old(Of(id));
              var state := Cell(Info(users, endAt), now + D.SESSION_STATE_TTL_MS);
              sessions == old(sessions)[id := s.(keys := s.keys.(state := state))]
    {
      var s := Of(id);
      sessions := sessions[id := s.(keys := s.keys.(state := Cell(Info(users, endAt), now + D.SESSION_STATE_TTL_MS)))];
    }

    /** `fault` says where the body of the `try` throws, if it does. */
    method HandleSessionCreated(id: SessionId, users: D.Session, fault: Fault)
      modifies this`sessions
      ensures sessions == PutIn(old(sessions), id, Start(old(Of(id)), now, users, fault))
    {
      var s := Of(id);
      if s.keys.lock.Live(now) {
        return;
      }
      sessions := sessions[id := s.(keys := s.keys.(lock := Cell((), now + SESSION_LOCK_TTL_MS)))];
      var endAt := now + SESSION_DURATION_MS;
      if fault.BeforePersist? {
        EndSession(id);
        return;
      }
      PersistSessionState(id, users, endAt);
      if fault.AfterPersist? {
        EndSession(id);
        return;
      }
      ScheduleSessionEnd(id, endAt);
    }

    /** The match row of a pair, inserted if it is not there. */
    method UpsertMatch(users: D.Session) returns (matchId: D.MatchId)
      modifies this`matches
      ensures var p := Text.CanonicalPair(users.userA, users.userB);
              && p in matches && matches[p] == matchId
              && matches == (if p in old(matches) then old(matches) else old(matches)[p := matchId])
    {
      var p := Text.CanonicalPair(users.userA, users.userB);
      if p !in matches {
        matches := matches[p := |matches|];
      }
      matchId := matches[p];
    }

    method FinalizeDecision(id: SessionId, users: D.Session, a: Choice, b: Choice) returns (o: Outcome)
      modifies this`sessions, this`matches
      ensures sessions == PutIn(old(sessions), id, Finalize(old(Of(id)), now, o))
      ensures RowsKept(old(matches), matches)
      ensures var d := old(Of(id)).keys.decision;
              if d.Live(now) then o == d.value && matches == old(matches)
              else
                && (o.Mutual? <==> a == D.MATCH && b == D.MATCH)
                && (o.Mutual? ==> var p := Text.CanonicalPair(users.userA, users.userB);
                                  p in matches && matches[p] == o.matchId)
                && (!o.Mutual? ==> matches == old(matches))
    {
      var s := Of(id);
      if s.keys.decision.Live(now) {
        return s.keys.decision.value;
      }
      var matchId := 0;
      if a == D.MATCH && b == D.MATCH {
        matchId := UpsertMatch(users);
      }
      o := OutcomeOf(a, b, matchId);
      sessions := sessions[id := s.(keys := s.keys.(decision := Cell(o, now + D.CHOICE_STATE_TTL_MS)),
                                    sent := s.sent.(outcomes := s.sent.outcomes + [o]),
                                    choiceTimer := None)];
    }

    method EvaluateChoices(id: SessionId, users: D.Session, deadline: Time) returns (reply: Reply)
      modifies this`sessions, this`matches
      ensures RowsKept(old(matches), matches)
      ensures var s := old(Of(id));
              match Evaluate(s.keys, now, users, deadline)
              case None => reply == Pending(deadline) && sessions == old(sessions)
              case Some((a, b)) =>
                && reply.Resolved?
                && sessions == PutIn(old(sessions), id, Finalize(s, now, reply.outcome))
                && (if s.keys.decision.Live(now) then reply.outcome == s.keys.decision.value
                    else reply.outcome.Mutual? <==> a == D.MATCH && b == D.MATCH)
      ensures NewlyMutual(old(Of(id)), now, reply) ==> MatchRow(matches, users, reply.outcome)
      ensures var k := old(Of(id)).keys;
              && (reply.Resolved? <==> Outcomes.MustDecide(k, now, users, deadline))
              && (reply.Resolved? && !k.decision.Live(now) ==>
                    (reply.outcome.Mutual? <==>
                       Outcomes.Picked(k, now, users.userA, D.MATCH) && Outcomes.Picked(k, now, users.userB, D.MATCH)))
    {
      var k := Of(id).keys;
      var f := if k.choices.Live(now) then k.choices.value else map[];
      var a, b := users.userA, users.userB;
      if D.Chose(f, a, D.PASS) || D.Chose(f, b, D.PASS) {
        var o := FinalizeDecision(id, users, D.OrPass(f, a), D.OrPass(f, b));
        return Resolved(o);
      }
      if D.Chose(f, a, D.MATCH) && D.Chose(f, b, D.MATCH) {
        var o := FinalizeDecision(id, users, D.MATCH, D.MATCH);
        return Resolved(o);
      }
      if deadline <= now {
        var o := FinalizeDecision(id, users, D.OrPass(f, a), D.OrPass(f, b));
        return Resolved(o);
      }
      reply := Pending(deadline);
    }

    /** The HGET, HSET and PEXPIRE of `submitChoice`: a first choice stands. */
    method RecordOwnChoice(id: SessionId, user: UserId, choice: Choice, deadline: Time)
      requires deadline == DeadlineOf(Of(id).keys, now)
      modifies this`sessions
      ensures var s := old(Of(id));
              sessions == PutIn(old(sessions), id, s.(keys := RecordChoice(s.keys, now, user, choice)))
    {
      var s := Of(id);
      var f := if s.keys.choices.Live(now) then s.keys.choices.value else map[];
      if user !in f {
        var at := if now < deadline then deadline else now + 1;
        sessions := PutIn(sessions, id, s.(keys := s.keys.(choices := Cell(f[user := choice], at))));
      }
    }

    /** `enrichChoiceResultForUser` adds only the partner's profile to a reply, so it is left off. */
    method SubmitChoice(id: SessionId, user: UserId, choice: Choice) returns (r: Response)
      modifies this`sessions, this`matches
      ensures RowsKept(old(matches), matches)
      ensures r == NotFound <==> id !in rows
      ensures r == Forbidden <==> id in rows && user != rows[id].userA && user != rows[id].userB
      ensures r.Replied? ==> SubmitAllows(old(Of(id)), now, rows[id], user, choice, Of(id), r.reply)
      ensures r.Replied? ==> Outcomes.Answered(old(Of(id)), now, rows[id], user, choice, Of(id), r.reply)
      ensures r.Replied? && NewlyMutual(old(Of(id)), now, r.reply) ==> MatchRow(matches, rows[id], r.reply.outcome)
      ensures !r.Replied? ==> sessions == old(sessions)
      ensures forall x :: x != id ==> Of(x) == old(Of(x))
    {
      if id !in rows {
        return NotFound;
      }
      var users := rows[id];
      if user != users.userA && user != users.userB {
        return Forbidden;
      }
      var s := Of(id);
      ghost var direct := Submit(s, now, users, user, choice, 0);
      if !s.keys.ended.Live(now) {
        assert direct == (Of(id), NotEnded);
        return Replied(NotEnded);
      }
      if s.keys.decision.Live(now) {
        RecordAnswer(id, s.keys.decision.value);
        assert direct == (Of(id), Resolved(s.keys.decision.value));
        return Replied(Resolved(s.keys.decision.value));
      }
      var reply := SubmitUndecided(id, users, user, choice);
      AllowedIsAnswered(s, now, users, user, choice, Of(id), reply);
      r := Replied(reply);
    }

    /** The rest of `submitChoice`, for an ended session without a live decision. */
    method SubmitUndecided(id: SessionId, users: D.Session, user: UserId, choice: Choice) returns (reply: Reply)
      requires Of(id).keys.ended.Live(now) && !Of(id).keys.decision.Live(now)
      modifies this`sessions, this`matches
      ensures RowsKept(old(matches), matches)
      ensures SubmitAllows(old(Of(id)), now, users, user, choice, Of(id), reply)
      ensures NewlyMutual(old(Of(id)), now, reply) ==> MatchRow(matches, users, reply.outcome)
      ensures forall x :: x != id ==> Of(x) == old(Of(x))
    {
      ghost var s := Of(id);
      var deadline := EnsureChoiceDeadline(id);
      RecordOwnChoice(id, user, choice, deadline);
      reply := EvaluateChoices(id, users, deadline);
      if reply.Resolved? {
        RecordAnswer(id, reply.outcome);
      }
      SubmitDone(s, now, users, user, choice, Of(id), reply);
    }

    method RecordAnswer(id: SessionId, o: Outcome)
      modifies this`sessions
      ensures sessions == PutIn(old(sessions), id, Answer(old(Of(id)), o).0)
    {
      var s := Of(id);
      sessions := PutIn(sessions, id, s.(sent := s.sent.(answers := s.sent.answers + {o})));
    }

    /** One state key in the first recovery pass. */
    method RecoverOneEnd(id: SessionId)
      modifies this`sessions
      ensures sessions == PutIn(old(sessions), id, RecoverEnd(old(Of(id)), now))
    {
      var state := Of(id).keys.state;
      if !state.Live(now) || Of(id).keys.ended.Live(now) {
        return;
      }
      if state.value.endAt <= now {
        EndSession(id);
        return;
      }
      ScheduleSessionEnd(id, state.value.endAt);
    }

    method RecoverNextEnd(scanned: seq<SessionId>, i: nat, startedAt: Time, elapsed: nat -> nat,
                          ghost first: map<SessionId, Status>)
      requires i < |scanned| && PassedTo(first, startedAt, scanned, i, elapsed, EndStep(), sessions)
      modifies this`now, this`sessions
      ensures now == startedAt + elapsed(i)
      ensures PassedTo(first, startedAt, scanned, i + 1, elapsed, EndStep(), sessions)
    {
      now := startedAt + elapsed(i);
      ghost var before := sessions;
      RecoverOneEnd(scanned[i]);
      EndPassMore(first, startedAt, scanned, i, elapsed, before, sessions);
    }

    /** The first recovery pass over the scanned keys. `elapsed` are the clock readings at the top of
        the loop; the pass stops at the first that has reached five seconds. */
    method RecoverSessionEndTimers(scanned: seq<SessionId>, scanTruncated: bool, elapsed: nat -> nat)
      returns (stop: nat, truncated: bool)
      modifies this`now, this`sessions
      ensures PassEnd(scanned, scanTruncated, elapsed, stop, truncated)
      ensures now == PassTime(old(now), stop, elapsed)
      ensures sessions == Pass(old(sessions), old(now), scanned[..stop], elapsed, EndStep())
    {
      var startedAt := now;
      stop, truncated := 0, scanTruncated;
      while stop < |scanned|
        invariant 0 <= stop <= |scanned| && truncated == scanTruncated
        invariant forall j :: 0 <= j < stop ==> elapsed(j) < RECOVERY_MAX_DURATION_MS
        invariant now == PassTime(startedAt, stop, elapsed)
        invariant PassedTo(old(sessions), startedAt, scanned, stop, elapsed, EndStep(), sessions)
      {
        if elapsed(stop) >= RECOVERY_MAX_DURATION_MS {
          truncated := true;
          return;
        }
        RecoverNextEnd(scanned, stop, startedAt, elapsed, old(sessions));
        stop := stop + 1;
      }
    }

    /** One deadline key in the second recovery pass. */
    method RecoverOneChoice(id: SessionId)
      modifies this`sessions, this`matches
      ensures sessions == PutIn(old(sessions), id, RecoverChoice(old(Of(id)), now, id in rows))
    {
      var k := Of(id).keys;
      if k.decision.Live(now) || !k.deadline.Live(now) {
        return;
      }
      if !k.state.Live(now) && id !in rows {
        return;
      }
      var users := if k.state.Live(now) then k.state.value.users else rows[id];
      if k.deadline.value <= now {
        var _ := FinalizeDecision(id, users, D.PASS, D.PASS);
        return;
      }
      ScheduleChoiceTimeout(id, k.deadline.value);
    }

    method RecoverNextChoice(scanned: seq<SessionId>, i: nat, startedAt: Time, elapsed: nat -> nat,
                             ghost first: map<SessionId, Status>)
      requires i < |scanned| && PassedTo(first, startedAt, scanned, i, elapsed, ChoiceStep(rows.Keys), sessions)
      modifies this`now, this`sessions, this`matches
      ensures now == startedAt + elapsed(i)
      ensures PassedTo(first, startedAt, scanned, i + 1, elapsed, ChoiceStep(rows.Keys), sessions)
    {
      now := startedAt + elapsed(i);
      ghost var before := sessions;
      RecoverOneChoice(scanned[i]);
      ChoicePassMore(first, startedAt, scanned, i, elapsed, rows.Keys, before, sessions);
    }

    /** The second recovery pass, over the scanned deadline keys. */
    method RecoverChoiceTimeouts(scanned: seq<SessionId>, scanTruncated: bool, elapsed: nat -> nat)
      returns (stop: nat, truncated: bool)
      modifies this`now, this`sessions, this`matches
      ensures PassEnd(scanned, scanTruncated, elapsed, stop, truncated)
      ensures now == PassTime(old(now), stop, elapsed)
      ensures sessions == Pass(old(sessions), old(now), scanned[..stop], elapsed, ChoiceStep(rows.Keys))
    {
      var startedAt := now;
      stop, truncated := 0, scanTruncated;
      while stop < |scanned|
        invariant 0 <= stop <= |scanned| && truncated == scanTruncated
        invariant forall j :: 0 <= j < stop ==> elapsed(j) < RECOVERY_MAX_DURATION_MS
        invariant now == PassTime(startedAt, stop, elapsed)
        invariant PassedTo(old(sessions), startedAt, scanned, stop, elapsed, ChoiceStep(rows.Keys), sessions)
      {
        if elapsed(stop) >= RECOVERY_MAX_DURATION_MS {
          truncated := true;
          return;
        }
        RecoverNextChoice(scanned, stop, startedAt, elapsed, old(sessions));
        stop := stop + 1;
      }
    }

    /** Recovery at start-up. If neither scan was truncated and SCAN returned every live key, each
        session whose state key is live, or whose deadline is live and whose row names the users,
        is watched again, whatever timers were there before. */
    method OnModuleInit(endPages: seq<Page>, endClock: nat -> nat, choicePages: seq<Page>, choiceClock: nat -> nat)
      returns (truncated: bool)
      requires WholeScan(endPages) && WholeScan(choicePages) && Monotone(endClock) && Monotone(choiceClock)
      requires AllOk(sessions, now)
      modifies this`now, this`sessions, this`matches
      ensures old(now) <= now && AllOk(sessions, now)
      ensures !truncated ==> forall id ::
        WatchedIfHandled(Of(id), now, id in rows, InPages(endPages, id), InPages(choicePages, id))
      ensures forall id :: Waited(old(Of(id)), Of(id), now)
    {
      ghost var before, start := sessions, now;
      var endKeys, cut1 := ScanKeys(endPages);
      var stop1, truncated1 := RecoverSessionEndTimers(endKeys, cut1, endClock);
      var choiceKeys, cut2 := ScanKeys(choicePages);
      var stop2, truncated2 := RecoverChoiceTimeouts(choiceKeys, cut2, choiceClock);
      truncated := truncated1 || truncated2;
      ghost var ends, choices := endKeys[..stop1], choiceKeys[..stop2];
      forall id
        ensures AllOk(sessions, now) && WatchedIfHandled(Of(id), now, id in rows, id in ends, id in choices)
      {
        RecoveryRestoresTimers(before, start, ends, endClock, choices, choiceClock, rows.Keys, id);
      }
      forall id
        ensures Waited(old(Of(id)), Of(id), now)
      {
        RecoveryWaits(before, start, ends, endClock, choices, choiceClock, rows.Keys, id);
      }
      if !truncated {
        assert ends == endKeys && choices == choiceKeys;
        assert forall id :: (InPages(endPages, id) ==> id in ends) && (InPages(choicePages, id) ==> id in choices);
      }
    }
  }

  lemma AllowedIsAnswered(s: Status, now: Time, users: D.Session, user: UserId, choice: Choice, s': Status,
                          reply: Reply)
    requires SubmitAllows(s, now, users, user, choice, s', reply)
    ensures Outcomes.Answered(s, now, users, user, choice, s', reply)
  {
    var m :| Submit(s, now, users, user, choice, m) == (s', reply);
    Outcomes.SubmitAnswers(s, now, users, user, choice, m);
  }

  /** Ensuring the deadline, recording the choice, evaluating and answering make up a submission. */
  lemma SubmitDone(s: Status, now: Time, users: D.Session, user: UserId, choice: Choice, s': Status, reply: Reply)
    requires s.keys.ended.Live(now) && !s.keys.decision.Live(now)
    requires var d := DeadlineOf(s.keys, now);
             var s1 := s.(keys := RecordChoice(EnsureDeadline(s.keys, now), now, user, choice));
             match Evaluate(s1.keys, now, users, d)
             case None => s' == s1 && reply == Pending(d)
             case Some((a, b)) =>
               && reply.Resolved? && (reply.outcome.Mutual? <==> a == D.MATCH && b == D.MATCH)
               && s' == Answer(Finalize(s1, now, reply.outcome), reply.outcome).0
    ensures SubmitAllows(s, now, users, user, choice, s', reply)
  {
    var m := if reply.Resolved? && reply.outcome.Mutual? then reply.outcome.matchId else 0;
    assert Submit(s, now, users, user, choice, m) == (s', reply);
  }
}
