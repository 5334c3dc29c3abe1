/**
 * One session from start to decision, one whole operation at a time: its Redis keys with their
 * one-hour and two-hour lives, the two in-process timers, crashes and the recovery passes.
 */
module SessionLifecycle {
  import opened Redis
  import D = DecisionProtocol

  type UserId = D.UserId
  type SessionId = D.SessionId
  type Choice = D.Choice
  type Outcome = D.Outcome

  const SESSION_DURATION_MS: nat := 45_000
  const SESSION_LOCK_TTL_MS: nat := 10_000

  datatype Info = Info(users: D.Session, endAt: Time)

  datatype Keys = Keys(
    lock: Cell<()>, state: Cell<Info>, ended: Cell<()>,
    deadline: Cell<Time>, choices: Cell<map<UserId, Choice>>, decision: Cell<Outcome>)

  /** What has been sent out: session:end events, outcome events, and resolved answers. */
  datatype Sent = Sent(ends: nat, outcomes: seq<Outcome>, answers: set<Outcome>)

  /** `endTimer` and `choiceTimer` are the due times of the pending timers, lost in a crash. */
  datatype Status = Status(keys: Keys, sent: Sent, endTimer: Option<Time>, choiceTimer: Option<Time>)

  const FRESH := Status(Keys(Unset, Unset, Unset, Unset, Unset, Unset), Sent(0, [], {}), None, None)

  // ---- The operations ----

  function DeadlineOf(k: Keys, now: Time): Time {
    if k.deadline.Live(now) then k.deadline.value else now + D.CHOICE_WINDOW_MS
  }

  /** `ensureChoiceDeadline`. */
  function EnsureDeadline(k: Keys, now: Time): Keys {
    if k.deadline.Live(now) then k
    else k.(deadline := Cell(now + D.CHOICE_WINDOW_MS, now + D.CHOICE_STATE_TTL_MS))
  }

  /** `endSession`: only the call whose SET NX on the ended marker succeeds does anything. */
  function End(s: Status, now: Time): Status {
    if s.keys.ended.Live(now) then s
    else
      var k := s.keys.(ended := Cell((), now + D.SESSION_STATE_TTL_MS));
      Status(EnsureDeadline(k, now), s.sent.(ends := s.sent.ends + 1), None, Some(DeadlineOf(k, now)))
  }

  function Persist(s: Status, now: Time, users: D.Session): Status {
    s.(keys := s.keys.(state := Cell(Info(users, now + SESSION_DURATION_MS), now + D.SESSION_STATE_TTL_MS)))
  }

  /** Where `handleSessionCreated` throws, if it does. */
  datatype Fault = NoFault | BeforePersist | AfterPersist

  /** `handleSessionCreated`. */
  function Start(s: Status, now: Time, users: D.Session, fault: Fault): Status {
    if s.keys.lock.Live(now) then s
    else
      var s1 := s.(keys := s.keys.(lock := Cell((), now + SESSION_LOCK_TTL_MS)));
      match fault
      case BeforePersist => End(s1, now)
      case AfterPersist => End(Persist(s1, now, users), now)
      case NoFault => Persist(s1, now, users).(endTimer := Some(now + SESSION_DURATION_MS))
  }

  function OutcomeOf(a: Choice, b: Choice, matchId: D.MatchId): Outcome {
    if a == D.MATCH && b == D.MATCH then D.Mutual(matchId) else D.NonMutual
  }

  /** `finalizeDecision`. */
  function Finalize(s: Status, now: Time, o: Outcome): Status {
    if s.keys.decision.Live(now) then s
    else s.(keys := s.keys.(decision := Cell(o, now + D.CHOICE_STATE_TTL_MS)),
            sent := s.sent.(outcomes := s.sent.outcomes + [o]),
            choiceTimer := None)
  }

  datatype Reply = NotEnded | Pending(deadline: Time) | Resolved(outcome: Outcome)

  /** The hash of choices after `user` has submitted; a first choice is never replaced. */
  function RecordChoice(k: Keys, now: Time, user: UserId, choice: Choice): Keys {
    var d := DeadlineOf(k, now);
    var f := if k.choices.Live(now) then k.choices.value else map[];
    if user in f then k
    else k.(choices := Cell(f[user := choice], if now < d then d else now + 1))
  }

  /** `evaluateChoices`: the choices to finalize with, or nothing while the window is open. */
  function Evaluate(k: Keys, now: Time, users: D.Session, deadline: Time): Option<(Choice, Choice)> {
    var f := if k.choices.Live(now) then k.choices.value else map[];
    var (a, b) := (users.userA, users.userB);
    if D.Chose(f, a, D.PASS) || D.Chose(f, b, D.PASS)
       || (D.Chose(f, a, D.MATCH) && D.Chose(f, b, D.MATCH))
       || deadline <= now
    then Some((D.OrPass(f, a), D.OrPass(f, b)))
    else None
  }

  function Answer(s: Status, o: Outcome): (Status, Reply) {
    (s.(sent := s.sent.(answers := s.sent.answers + {o})), Resolved(o))
  }

  /** `submitChoice` by a participant. */
  function Submit(s: Status, now: Time, users: D.Session, user: UserId, choice: Choice, matchId: D.MatchId)
    : (Status, Reply)
  {
    if !s.keys.ended.Live(now) then (s, NotEnded)
    else if s.keys.decision.Live(now) then Answer(s, s.keys.decision.value)
    else
      var d := DeadlineOf(s.keys, now);
      var s1 := s.(keys := RecordChoice(EnsureDeadline(s.keys, now), now, user, choice));
      match Evaluate(s1.keys, now, users, d)
      case None => (s1, Pending(d))
      case Some((a, b)) =>
        var o := OutcomeOf(a, b, matchId);
        Answer(Finalize(s1, now, o), o)
  }

  /** `recoverSessionEndTimers`, one scanned key. */
  function RecoverEnd(s: Status, now: Time): Status {
    if !s.keys.state.Live(now) || s.keys.ended.Live(now) then s
    else if s.keys.state.value.endAt <= now then End(s, now)
    else s.(endTimer := Some(s.keys.state.value.endAt))
  }

  /** `resolveSessionParticipants` finds the users in the state key or in the session row. */
  predicate Resolvable(s: Status, now: Time, hasRow: bool) { s.keys.state.Live(now) || hasRow }

  /** `recoverChoiceTimeouts`, one scanned key. */
  function RecoverChoice(s: Status, now: Time, hasRow: bool): Status {
    if s.keys.decision.Live(now) || !s.keys.deadline.Live(now) || !Resolvable(s, now, hasRow) then s
    else if s.keys.deadline.value <= now then Finalize(s, now, D.NonMutual)
    else s.(choiceTimer := Some(s.keys.deadline.value))
  }

  // ---- Runs ----

  datatype World = World(now: Time, sessions: map<SessionId, Status>, rows: map<SessionId, D.Session>)

  function AtIn(m: map<SessionId, Status>, id: SessionId): Status {
    if id in m then m[id] else FRESH
  }

  function PutIn(m: map<SessionId, Status>, id: SessionId, s: Status): map<SessionId, Status> {
    if s == AtIn(m, id) then m else m[id := s]
  }

  function At(w: World, id: SessionId): Status { AtIn(w.sessions, id) }

  function Put(w: World, id: SessionId, s: Status): World {
    w.(sessions := PutIn(w.sessions, id, s))
  }

  function Forget(w: World): World {
    w.(sessions := map id | id in w.sessions :: w.sessions[id].(endTimer := None, choiceTimer := None))
  }

  datatype Action =
    | Tick(to: Time)
    | Create(id: SessionId, users: D.Session)
    | DeleteRow(id: SessionId)
    | HandleCreated(id: SessionId, fault: Fault)
    | EndSession(id: SessionId)
    | EndTimerFires(id: SessionId)
    | ChoiceTimerFires(id: SessionId)
    | SubmitChoice(id: SessionId, user: UserId, choice: Choice, matchId: D.MatchId)
    | Crash
    | RecoverEndKey(id: SessionId)
    | RecoverChoiceKey(id: SessionId)

  /** Two demands are on the callers: a session is not started after it was ended, and no
      `endSession` comes in after the ended marker has lapsed. */
  ghost predicate Enabled(w: World, a: Action) {
    match a
    case Tick(to) => w.now <= to
    case Create(id, _) => id !in w.rows && At(w, id) == FRESH
    case DeleteRow(_) => true
    case HandleCreated(id, _) => id in w.rows && !At(w, id).keys.ended.Cell?
    case EndSession(id) => At(w, id).keys.ended.Cell? ==> At(w, id).keys.ended.Live(w.now)
    case EndTimerFires(id) => At(w, id).endTimer.Some? && At(w, id).endTimer.value <= w.now
    case ChoiceTimerFires(id) => At(w, id).choiceTimer.Some? && At(w, id).choiceTimer.value <= w.now
    case SubmitChoice(id, user, _, _) => id in w.rows && (user == w.rows[id].userA || user == w.rows[id].userB)
    case Crash => true
    case RecoverEndKey(_) => true
    case RecoverChoiceKey(_) => true
  }

  ghost function Apply(w: World, a: Action): World
    requires Enabled(w, a)
  {
    match a
    case Tick(to) => w.(now := to)
    case Create(id, users) => w.(rows := w.rows[id := users])
    case DeleteRow(id) => w.(rows := w.rows - {id})
    case HandleCreated(id, fault) => Put(w, id, Start(At(w, id), w.now, w.rows[id], fault))
    case EndSession(id) => Put(w, id, End(At(w, id), w.now))
    case EndTimerFires(id) => Put(w, id, End(At(w, id).(endTimer := None), w.now))
    case ChoiceTimerFires(id) => Put(w, id, Finalize(At(w, id).(choiceTimer := None), w.now, D.NonMutual))
    case SubmitChoice(id, user, choice, m) => Put(w, id, Submit(At(w, id), w.now, w.rows[id], user, choice, m).0)
    case Crash => Forget(w)
    case RecoverEndKey(id) => Put(w, id, RecoverEnd(At(w, id), w.now))
    case RecoverChoiceKey(id) => Put(w, id, RecoverChoice(At(w, id), w.now, id in w.rows))
  }

  ghost predicate IsRun(tr: seq<World>, acts: seq<Action>) {
    && |tr| == |acts| + 1 && tr[0].sessions == map[] && tr[0].rows == map[]
    && forall i :: 0 <= i < |acts| ==> Enabled(tr[i], acts[i]) && tr[i + 1] == Apply(tr[i], acts[i])
  }

  // ---- TTL nesting ----

  /** The state key never outlives the ended marker, the marker never outlives the deadline, and the
      deadline never outlives a stored decision. */
  ghost predicate Nested(k: Keys) {
    && (k.state.Cell? && k.ended.Cell? ==> k.state.expiresAt <= k.ended.expiresAt)
    && (k.ended.Cell? <==> k.deadline.Cell?)
    && (k.ended.Cell? ==> k.ended.expiresAt <= k.deadline.expiresAt)
    && (k.decision.Cell? ==> k.deadline.Cell? && k.deadline.expiresAt <= k.decision.expiresAt)
  }

  /** Keys were written with their own lives, no later than now. */
  ghost predicate Timely(k: Keys, now: Time) {
    && (k.state.Cell? ==> k.state.expiresAt <= now + D.SESSION_STATE_TTL_MS)
    && (k.ended.Cell? ==> k.ended.expiresAt <= now + D.SESSION_STATE_TTL_MS)
    && (k.deadline.Cell? ==> k.deadline.expiresAt <= now + D.CHOICE_STATE_TTL_MS)
  }

  /** At most one end, at most one outcome, and every answer is that outcome. */
  ghost predicate Once(s: Status) {
    && s.sent.ends == (if s.keys.ended.Cell? then 1 else 0)
    && s.sent.outcomes == (if s.keys.decision.Cell? then [s.keys.decision.value] else [])
    && forall o :: o in s.sent.answers ==> s.sent.outcomes == [o]
  }

  /** A pending timer belongs to a session that still needs it. */
  ghost predicate TimersNeeded(s: Status) {
    && (s.endTimer.Some? ==> !s.keys.ended.Cell?)
    && (s.choiceTimer.Some? ==> s.keys.ended.Cell? && !s.keys.decision.Cell?)
  }

  ghost predicate StatusOk(s: Status, now: Time) {
    Nested(s.keys) && Timely(s.keys, now) && Once(s) && TimersNeeded(s)
  }

  ghost predicate AllOk(m: map<SessionId, Status>, now: Time) {
    forall id :: id in m ==> StatusOk(m[id], now)
  }

  ghost predicate Inv(w: World) {
    AllOk(w.sessions, w.now)
  }

  lemma EndKeepsStatus(s: Status, now: Time)
    requires StatusOk(s, now) && (s.keys.ended.Cell? ==> s.keys.ended.Live(now))
    ensures StatusOk(End(s, now), now)
  {
  }

  lemma StartKeepsStatus(s: Status, now: Time, users: D.Session, fault: Fault)
    requires StatusOk(s, now) && !s.keys.ended.Cell?
    ensures StatusOk(Start(s, now, users, fault), now)
  {
  }

  lemma FinalizeKeepsStatus(s: Status, now: Time, o: Outcome)
    requires StatusOk(s, now) && s.keys.ended.Cell?
    requires s.keys.decision.Cell? ==> s.keys.decision.Live(now)
    ensures StatusOk(Finalize(s, now, o), now)
  {
  }

  lemma SubmitKeepsStatus(s: Status, now: Time, users: D.Session, user: UserId, choice: Choice, matchId: D.MatchId)
    requires StatusOk(s, now)
    ensures StatusOk(Submit(s, now, users, user, choice, matchId).0, now)
  {
  }

  lemma RecoverKeepsStatus(s: Status, now: Time, hasRow: bool)
    requires StatusOk(s, now)
    ensures StatusOk(RecoverEnd(s, now), now)
    ensures StatusOk(RecoverChoice(s, now, hasRow), now)
  {
  }

  lemma StepKeepsInv(w: World, a: Action)
    requires Inv(w) && Enabled(w, a)
    ensures Inv(Apply(w, a))
  {
    match a
    case HandleCreated(id, fault) => StartKeepsStatus(At(w, id), w.now, w.rows[id], fault);
    case EndSession(id) => EndKeepsStatus(At(w, id), w.now);
    case EndTimerFires(id) => EndKeepsStatus(At(w, id).(endTimer := None), w.now);
    case ChoiceTimerFires(id) => FinalizeKeepsStatus(At(w, id).(choiceTimer := None), w.now, D.NonMutual);
    case SubmitChoice(id, user, choice, m) => SubmitKeepsStatus(At(w, id), w.now, w.rows[id], user, choice, m);
    case RecoverEndKey(id) => RecoverKeepsStatus(At(w, id), w.now, false);
    case RecoverChoiceKey(id) => RecoverKeepsStatus(At(w, id), w.now, id in w.rows);
    case _ =>
  }

  lemma {:induction false} RunInv(tr: seq<World>, acts: seq<Action>, i: nat)
    requires IsRun(tr, acts) && i < |tr|
    ensures Inv(tr[i])
  {
    if i > 0 {
      RunInv(tr, acts, i - 1);
      StepKeepsInv(tr[i - 1], acts[i - 1]);
    }
  }

  /** TTL nesting. At every point of every run, crashes included, the keys of a session lapse in the
      order state, ended marker, deadline, decision; and it was ended and decided at most once. */
  lemma TtlNesting(tr: seq<World>, acts: seq<Action>, i: nat, id: SessionId)
    requires IsRun(tr, acts) && i < |tr|
    ensures var s := At(tr[i], id);
            && Nested(s.keys)
            && s.sent.ends <= 1 && |s.sent.outcomes| <= 1
            && (s.keys.ended.Live(tr[i].now) ==> s.keys.deadline.Live(tr[i].now))
            && (s.keys.ended.Live(tr[i].now) && s.sent.outcomes != [] ==> s.keys.decision.Live(tr[i].now))
  {
    RunInv(tr, acts, i);
  }

  /** So recovery cannot repeat work, however long the process was down: a session that was ended is
      not ended again by the first pass, nor is a decided one decided again by the second. */
  lemma RecoveryRepeatsNothing(tr: seq<World>, acts: seq<Action>, i: nat, id: SessionId)
    requires IsRun(tr, acts) && i < |tr|
    ensures var s := At(tr[i], id);
            && (s.sent.ends == 1 ==> RecoverEnd(s, tr[i].now) == s)
            && (s.sent.outcomes != [] ==> RecoverChoice(s, tr[i].now, id in tr[i].rows) == s)
  {
    RunInv(tr, acts, i);
  }

  ghost predicate Grows(s: Status, s': Status) {
    s.sent.outcomes <= s'.sent.outcomes && s.sent.answers <= s'.sent.answers
  }

  lemma StepGrows(w: World, a: Action, id: SessionId)
    requires Enabled(w, a)
    ensures Grows(At(w, id), At(Apply(w, a), id))
  {
  }

  lemma GrowsAt(tr: seq<World>, acts: seq<Action>, k: nat, id: SessionId)
    requires IsRun(tr, acts) && k < |acts|
    ensures Grows(At(tr[k], id), At(tr[k + 1], id))
  {
    StepGrows(tr[k], acts[k], id);
  }

  lemma {:induction false} GrowsChain(ss: seq<Status>)
    requires |ss| > 0 && forall k :: 0 <= k < |ss| - 1 ==> Grows(ss[k], ss[k + 1])
    ensures Grows(ss[0], ss[|ss| - 1])
  {
    if |ss| > 1 { GrowsChain(ss[1..]); }
  }

  lemma RunGrows(tr: seq<World>, acts: seq<Action>, i: nat, j: nat, id: SessionId)
    requires IsRun(tr, acts) && i <= j < |tr|
    ensures Grows(At(tr[i], id), At(tr[j], id))
  {
    var ss := seq(j - i + 1, k requires 0 <= k <= j - i => At(tr[i + k], id));
    forall k | 0 <= k < |ss| - 1 ensures Grows(ss[k], ss[k + 1]) {
      GrowsAt(tr, acts, i + k, id);
    }
    GrowsChain(ss);
  }

  /** A decided session always answers the same: once its outcome was sent, every later submission,
      by either user and with any choice, is refused as not ended or answered with that outcome. */
  lemma DecidedAnswersTheSame(tr: seq<World>, acts: seq<Action>, i: nat, j: nat)
    requires IsRun(tr, acts) && i <= j < |acts| && acts[j].SubmitChoice?
    requires At(tr[i], acts[j].id).sent.outcomes != []
    ensures var a := acts[j];
            var reply := Submit(At(tr[j], a.id), tr[j].now, tr[j].rows[a.id], a.user, a.choice, a.matchId).1;
            reply == NotEnded || reply == Resolved(At(tr[i], a.id).sent.outcomes[0])
  {
    RunInv(tr, acts, j);
    RunGrows(tr, acts, i, j, acts[j].id);
  }

  // ---- No stuck session ----

  ghost predicate EndWatched(s: Status) {
    s.keys.state.Cell? && !s.keys.ended.Cell? ==> s.endTimer == Some(s.keys.state.value.endAt)
  }

  ghost predicate ChoiceWatched(s: Status) {
    s.keys.ended.Cell? && !s.keys.decision.Cell? ==>
      s.keys.deadline.Cell? && s.choiceTimer == Some(s.keys.deadline.value)
  }

  /** A started session has its end timer until it ends, then its choice timer until it is decided. */
  ghost predicate Watched(s: Status) { EndWatched(s) && ChoiceWatched(s) }

  lemma StepKeepsEndWatched(w: World, a: Action, id: SessionId)
    requires Inv(w) && Enabled(w, a) && !a.Crash? && EndWatched(At(w, id))
    ensures EndWatched(At(Apply(w, a), id))
  {
  }

  lemma StepKeepsChoiceWatched(w: World, a: Action, id: SessionId)
    requires Inv(w) && Enabled(w, a) && !a.Crash? && ChoiceWatched(At(w, id))
    ensures ChoiceWatched(At(Apply(w, a), id))
  {
    if a.SubmitChoice? {
      SubmitKeepsWatched(At(w, a.id), w.now, w.rows[a.id], a.user, a.choice, a.matchId);
    }
  }

  lemma SubmitKeepsWatched(s: Status, now: Time, users: D.Session, user: UserId, choice: Choice, matchId: D.MatchId)
    requires StatusOk(s, now)
    ensures var s' := Submit(s, now, users, user, choice, matchId).0;
            (EndWatched(s) ==> EndWatched(s')) && (ChoiceWatched(s) ==> ChoiceWatched(s'))
  {
  }

  lemma WatchedAt(tr: seq<World>, acts: seq<Action>, k: nat, id: SessionId)
    requires IsRun(tr, acts) && k < |acts| && !acts[k].Crash? && Watched(At(tr[k], id))
    ensures Watched(At(tr[k + 1], id))
  {
    RunInv(tr, acts, k);
    StepKeepsEndWatched(tr[k], acts[k], id);
    StepKeepsChoiceWatched(tr[k], acts[k], id);
  }

  /** No stuck session. Until the process crashes, a watched session stays watched; and since a
      session that has not started is watched, so is every session of a run without a crash. */
  lemma {:induction false} StaysWatched(tr: seq<World>, acts: seq<Action>, i: nat, j: nat, id: SessionId)
    requires IsRun(tr, acts) && i <= j < |tr| && forall k :: i <= k < j ==> !acts[k].Crash?
    ensures Watched(At(tr[i], id)) ==> Watched(At(tr[j], id))
    ensures i == 0 ==> Watched(At(tr[j], id))
  {
    if i < j {
      StaysWatched(tr, acts, i, j - 1, id);
      if Watched(At(tr[j - 1], id)) { WatchedAt(tr, acts, j - 1, id); }
    }
  }

  /** Recovery watches again: handling a session's keys while they are live, whatever the crash left. */
  lemma RecoveryWatches(s: Status, now: Time, hasRow: bool)
    requires StatusOk(s, now)
    ensures s.keys.state.Live(now) ==> EndWatched(RecoverEnd(s, now))
    ensures s.keys.deadline.Live(now) && Resolvable(s, now, hasRow) ==> ChoiceWatched(RecoverChoice(s, now, hasRow))
    ensures EndWatched(s) ==> EndWatched(RecoverEnd(s, now)) && EndWatched(RecoverChoice(s, now, hasRow))
    ensures ChoiceWatched(s) ==> ChoiceWatched(RecoverEnd(s, now))
  {
  }

  /** What the stored state is good for. After a crash, a started session that was not ended is found by
      recovery for exactly an hour: before its end time recovery gives it its timer for that time, after
      it recovery ends it, and opens its choice window. */
  lemma PersistedIsRecovered(s: Status, at: Time, users: D.Session, now: Time)
    requires at <= now && !s.keys.ended.Live(now)
    ensures var p := Persist(s, at, users).(endTimer := None);
            var r := RecoverEnd(p, now);
            && (Resolvable(p, now, false) <==> now <= at + 3_600_000)
            && (now <= at + 3_600_000 ==>
                  p.keys.state.Get(now) == Some(Info(users, at + 45_000)))
            && (r == p <==> now > at + 3_600_000)
            && (now < at + 45_000 ==> r.endTimer == Some(at + 45_000) && r.keys == p.keys)
            && (at + 45_000 <= now <= at + 3_600_000 ==>
                  r.keys.ended.Live(now) && r.sent.ends == s.sent.ends + 1 &&
                  r.choiceTimer == Some(DeadlineOf(s.keys, now)))
  {
  }

  // ---- Whole recovery passes ----

  type KeyStep = (SessionId, Status, Time) -> Status

  /** A recovery pass over `ids`, the i-th of them handled by `step` at `start + clock(i)`. */
  function Pass(m: map<SessionId, Status>, start: Time, ids: seq<SessionId>, clock: nat -> nat, step: KeyStep)
    : map<SessionId, Status>
  {
    if ids == [] then m
    else
      var n := |ids| - 1;
      var p := Pass(m, start, ids[..n], clock, step);
      PutIn(p, ids[n], step(ids[n], AtIn(p, ids[n]), start + clock(n)))
  }

  lemma PassSnoc(m: map<SessionId, Status>, start: Time, ids: seq<SessionId>, n: nat, clock: nat -> nat, step: KeyStep)
    requires n < |ids|
    ensures var p := Pass(m, start, ids[..n], clock, step);
            Pass(m, start, ids[..n + 1], clock, step)
            == PutIn(p, ids[n], step(ids[n], AtIn(p, ids[n]), start + clock(n)))
  {
    assert ids[..n + 1][..n] == ids[..n];
  }

  function EndStep(): KeyStep {
    (id: SessionId, s: Status, now: Time) => RecoverEnd(s, now)
  }

  /** `rows` are the sessions that still have a row. */
  function ChoiceStep(rows: set<SessionId>): KeyStep {
    (id: SessionId, s: Status, now: Time) => RecoverChoice(s, now, id in rows)
  }

  /** The sessions after the first `n` keys of a pass. */
  ghost predicate PassedTo(m: map<SessionId, Status>, start: Time, ids: seq<SessionId>, n: nat, clock: nat -> nat,
                         step: KeyStep, after: map<SessionId, Status>)
  {
    n <= |ids| && after == Pass(m, start, ids[..n], clock, step)
  }

  lemma EndPassMore(m: map<SessionId, Status>, start: Time, ids: seq<SessionId>, n: nat, clock: nat -> nat,
                    before: map<SessionId, Status>, after: map<SessionId, Status>)
    requires n < |ids| && PassedTo(m, start, ids, n, clock, EndStep(), before)
    requires after == PutIn(before, ids[n], RecoverEnd(AtIn(before, ids[n]), start + clock(n)))
    ensures PassedTo(m, start, ids, n + 1, clock, EndStep(), after)
  {
    PassSnoc(m, start, ids, n, clock, EndStep());
  }

  lemma ChoicePassMore(m: map<SessionId, Status>, start: Time, ids: seq<SessionId>, n: nat, clock: nat -> nat,
                       rows: set<SessionId>, before: map<SessionId, Status>, after: map<SessionId, Status>)
    requires n < |ids| && PassedTo(m, start, ids, n, clock, ChoiceStep(rows), before)
    requires after == PutIn(before, ids[n], RecoverChoice(AtIn(before, ids[n]), start + clock(n), ids[n] in rows))
    ensures PassedTo(m, start, ids, n + 1, clock, ChoiceStep(rows), after)
  {
    PassSnoc(m, start, ids, n, clock, ChoiceStep(rows));
  }

  function PassTime(start: Time, n: nat, clock: nat -> nat): Time {
    if n == 0 then start else start + clock(n - 1)
  }

  ghost predicate Monotone(clock: nat -> nat) {
    forall i, j :: i <= j ==> clock(i) <= clock(j)
  }

  type Goal = (SessionId, Status, Time) -> bool

  /** `step` keeps a session in order and `kept`, and reaches `goal`; time alone undoes neither. */
  ghost predicate Achieves(step: KeyStep, kept: Goal, goal: Goal) {
    && (forall id: SessionId, s: Status, t: Time ::
          StatusOk(s, t) ==> StatusOk(step(id, s, t), t) && goal(id, step(id, s, t), t))
    && (forall id: SessionId, s: Status, t: Time :: StatusOk(s, t) && kept(id, s, t) ==> kept(id, step(id, s, t), t))
    && (forall id: SessionId, s: Status, t: Time, t': Time :: t <= t' && kept(id, s, t) ==> kept(id, s, t'))
    && (forall id: SessionId, s: Status, t: Time, t': Time :: t <= t' && goal(id, s, t) ==> goal(id, s, t'))
  }

  lemma {:induction false} PassKeepsOk(m: map<SessionId, Status>, start: Time, ids: seq<SessionId>, clock: nat -> nat,
                                       step: KeyStep, kept: Goal, goal: Goal)
    requires AllOk(m, start) && Monotone(clock) && Achieves(step, kept, goal)
    ensures AllOk(Pass(m, start, ids, clock, step), PassTime(start, |ids|, clock))
  {
    if ids != [] {
      var n := |ids| - 1;
      var p, t := Pass(m, start, ids[..n], clock, step), start + clock(n);
      PassKeepsOk(m, start, ids[..n], clock, step, kept, goal);
      AllStayOk(p, PassTime(start, n, clock), t);
      assert StatusOk(AtIn(p, ids[n]), t);
    }
  }

  lemma AllStayOk(m: map<SessionId, Status>, t: Time, t': Time)
    requires AllOk(m, t) && t <= t'
    ensures AllOk(m, t')
  {
  }

  lemma KeyAchieves(m: map<SessionId, Status>, x: SessionId, t: Time, step: KeyStep, kept: Goal, goal: Goal,
                    id: SessionId)
    requires AllOk(m, t) && Achieves(step, kept, goal)
    ensures var m' := PutIn(m, x, step(x, AtIn(m, x), t));
            && (kept(id, AtIn(m, id), t) ==> kept(id, AtIn(m', id), t))
            && (goal(id, AtIn(m, id), t) || id == x ==> goal(id, AtIn(m', id), t))
  {
  }

  lemma OneKeyMore(m: map<SessionId, Status>, x: SessionId, before: Time, t: Time, step: KeyStep,
                   kept: Goal, goal: Goal, id: SessionId)
    requires AllOk(m, before) && before <= t && Achieves(step, kept, goal)
    ensures var m' := PutIn(m, x, step(x, AtIn(m, x), t));
            && (kept(id, AtIn(m, id), before) ==> kept(id, AtIn(m', id), t))
            && (goal(id, AtIn(m, id), before) || id == x ==> goal(id, AtIn(m', id), t))
  {
    AllStayOk(m, before, t);
    KeyAchieves(m, x, t, step, kept, goal, id);
  }

  /** What a pass over `ids` does for the session `id`. */
  ghost predicate Passed(m: map<SessionId, Status>, start: Time, ids: seq<SessionId>, clock: nat -> nat,
                         step: KeyStep, kept: Goal, goal: Goal, id: SessionId)
  {
    var m' := Pass(m, start, ids, clock, step);
    var now := PassTime(start, |ids|, clock);
    && (kept(id, AtIn(m, id), start) ==> kept(id, AtIn(m', id), now))
    && (id in ids ==> goal(id, AtIn(m', id), now))
  }

  lemma PassedOneMore(m: map<SessionId, Status>, start: Time, ids: seq<SessionId>, n: nat, clock: nat -> nat,
                      step: KeyStep, kept: Goal, goal: Goal, id: SessionId)
    requires n < |ids| && Passed(m, start, ids[..n], clock, step, kept, goal, id)
    requires AllOk(Pass(m, start, ids[..n], clock, step), PassTime(start, n, clock))
    requires Monotone(clock) && Achieves(step, kept, goal)
    ensures Passed(m, start, ids[..n + 1], clock, step, kept, goal, id)
  {
    PassSnoc(m, start, ids, n, clock, step);
    var p := Pass(m, start, ids[..n], clock, step);
    OneKeyMore(p, ids[n], PassTime(start, n, clock), start + clock(n), step, kept, goal, id);
    assert ids[..n + 1] == ids[..n] + [ids[n]];
  }

  lemma {:induction false} PassAchieves(m: map<SessionId, Status>, start: Time, ids: seq<SessionId>, clock: nat -> nat,
                                        step: KeyStep, kept: Goal, goal: Goal, id: SessionId)
    requires AllOk(m, start) && Monotone(clock) && Achieves(step, kept, goal)
    ensures Passed(m, start, ids, clock, step, kept, goal, id)
  {
    for n := 0 to |ids|
      invariant Passed(m, start, ids[..n], clock, step, kept, goal, id)
    {
      PassKeepsOk(m, start, ids[..n], clock, step, kept, goal);
      PassedOneMore(m, start, ids, n, clock, step, kept, goal, id);
    }
    assert ids[..|ids|] == ids;
  }

  ghost function EndWatchedIfLive(): Goal {
    (id: SessionId, s: Status, now: Time) => s.keys.state.Live(now) ==> EndWatched(s)
  }

  ghost function ChoiceWatchedIfLive(rows: set<SessionId>): Goal {
    (id: SessionId, s: Status, now: Time) =>
      s.keys.deadline.Live(now) && Resolvable(s, now, id in rows) ==> ChoiceWatched(s)
  }

  lemma EndStepAchieves()
    ensures Achieves(EndStep(), EndWatchedIfLive(), EndWatchedIfLive())
  {
    forall id: SessionId, s: Status, t: Time | StatusOk(s, t)
      ensures StatusOk(EndStep()(id, s, t), t) && EndWatchedIfLive()(id, EndStep()(id, s, t), t)
    {
      RecoverKeepsStatus(s, t, false);
      RecoveryWatches(s, t, false);
    }
  }

  lemma ChoiceStepAchieves(rows: set<SessionId>)
    ensures Achieves(ChoiceStep(rows), EndWatchedIfLive(), ChoiceWatchedIfLive(rows))
  {
    forall id: SessionId, s: Status, t: Time | StatusOk(s, t)
      ensures StatusOk(ChoiceStep(rows)(id, s, t), t) && ChoiceWatchedIfLive(rows)(id, ChoiceStep(rows)(id, s, t), t)
      ensures EndWatchedIfLive()(id, s, t) ==> EndWatchedIfLive()(id, ChoiceStep(rows)(id, s, t), t)
    {
      RecoverKeepsStatus(s, t, id in rows);
      RecoveryWatches(s, t, id in rows);
    }
    forall id: SessionId, s: Status, t: Time, t': Time | t <= t' && ChoiceWatchedIfLive(rows)(id, s, t)
      ensures ChoiceWatchedIfLive(rows)(id, s, t')
    {
      assert Resolvable(s, t', id in rows) ==> Resolvable(s, t, id in rows);
    }
  }

  /** Everything the two passes can still find. */
  ghost predicate Findable(s: Status, now: Time, hasRow: bool) {
    s.keys.state.Live(now) || (s.keys.deadline.Live(now) && hasRow)
  }

  ghost predicate WatchedIfHandled(s: Status, now: Time, hasRow: bool, inEnds: bool, inChoices: bool) {
    (Findable(s, now, hasRow) && (s.keys.state.Live(now) ==> inEnds) && (s.keys.deadline.Live(now) ==> inChoices))
    ==> Watched(s)
  }

  /** Recovery watches everything that can still be found: after both passes, whatever timers the
      last process left, each session whose state key is live, or whose deadline is live and whose
      row is there, is watched, if its live keys were among those handled. */
  lemma RecoveryRestoresTimers(
      m: map<SessionId, Status>, start: Time, ends: seq<SessionId>, endClock: nat -> nat,
      choices: seq<SessionId>, choiceClock: nat -> nat, rows: set<SessionId>, id: SessionId)
    requires AllOk(m, start) && Monotone(endClock) && Monotone(choiceClock)
    ensures var t1 := PassTime(start, |ends|, endClock);
            var now := PassTime(t1, |choices|, choiceClock);
            var m' := Pass(Pass(m, start, ends, endClock, EndStep()), t1, choices, choiceClock, ChoiceStep(rows));
            var s := AtIn(m', id);
            AllOk(m', now) && WatchedIfHandled(s, now, id in rows, id in ends, id in choices)
  {
    EndStepAchieves();
    ChoiceStepAchieves(rows);
    var t1 := PassTime(start, |ends|, endClock);
    var m1 := Pass(m, start, ends, endClock, EndStep());
    PassKeepsOk(m, start, ends, endClock, EndStep(), EndWatchedIfLive(), EndWatchedIfLive());
    PassKeepsOk(m1, t1, choices, choiceClock, ChoiceStep(rows), EndWatchedIfLive(), ChoiceWatchedIfLive(rows));
    PassAchieves(m, start, ends, endClock, EndStep(), EndWatchedIfLive(), EndWatchedIfLive(), id);
    PassAchieves(m1, t1, choices, choiceClock, ChoiceStep(rows), EndWatchedIfLive(), ChoiceWatchedIfLive(rows), id);
  }

  // ---- Recovery waits ----

  /** What recovery has made of `s0`: a session that was ended keeps its keys, its choices with them, and
      an outcome is sent only when the deadline is reached, once, and it is not mutual. */
  ghost predicate Waited(s0: Status, s: Status, now: Time) {
    && s.keys.choices == s0.keys.choices
    && (s0.keys.ended.Cell? ==> s.keys.(decision := s0.keys.decision) == s0.keys)
    && if s.sent.outcomes == s0.sent.outcomes then s.keys.decision == s0.keys.decision
       else
         && s0.sent.outcomes == [] && s.sent.outcomes == [D.NonMutual]
         && s.keys.deadline.Cell? && s.keys.deadline.value <= now
  }

  ghost function WaitedFrom(m: map<SessionId, Status>): Goal {
    (id: SessionId, s: Status, now: Time) => Waited(AtIn(m, id), s, now)
  }

  ghost function Anything(): Goal {
    (id: SessionId, s: Status, now: Time) => true
  }

  lemma EndStepWaits(m: map<SessionId, Status>)
    ensures Achieves(EndStep(), WaitedFrom(m), Anything())
  {
    forall id: SessionId, s: Status, t: Time | StatusOk(s, t)
      ensures StatusOk(EndStep()(id, s, t), t)
      ensures Waited(AtIn(m, id), s, t) ==> Waited(AtIn(m, id), EndStep()(id, s, t), t)
    {
      RecoverKeepsStatus(s, t, false);
    }
  }

  lemma ChoiceStepWaits(m: map<SessionId, Status>, rows: set<SessionId>)
    ensures Achieves(ChoiceStep(rows), WaitedFrom(m), Anything())
  {
    forall id: SessionId, s: Status, t: Time | StatusOk(s, t)
      ensures StatusOk(ChoiceStep(rows)(id, s, t), t)
      ensures Waited(AtIn(m, id), s, t) ==> Waited(AtIn(m, id), ChoiceStep(rows)(id, s, t), t)
    {
      RecoverKeepsStatus(s, t, id in rows);
    }
  }

  /** Neither pass decides a session before its deadline. */
  lemma RecoveryWaits(
      m: map<SessionId, Status>, start: Time, ends: seq<SessionId>, endClock: nat -> nat,
      choices: seq<SessionId>, choiceClock: nat -> nat, rows: set<SessionId>, id: SessionId)
    requires AllOk(m, start) && Monotone(endClock) && Monotone(choiceClock)
    ensures var t1 := PassTime(start, |ends|, endClock);
            var now := PassTime(t1, |choices|, choiceClock);
            var m' := Pass(Pass(m, start, ends, endClock, EndStep()), t1, choices, choiceClock, ChoiceStep(rows));
            Waited(AtIn(m, id), AtIn(m', id), now)
  {
    EndStepWaits(m);
    ChoiceStepWaits(m, rows);
    var t1 := PassTime(start, |ends|, endClock);
    var m1 := Pass(m, start, ends, endClock, EndStep());
    PassKeepsOk(m, start, ends, endClock, EndStep(), WaitedFrom(m), Anything());
    PassAchieves(m, start, ends, endClock, EndStep(), WaitedFrom(m), Anything(), id);
    PassAchieves(m1, t1, choices, choiceClock, ChoiceStep(rows), WaitedFrom(m), Anything(), id);
  }
}
