/**
 * Deciding a session, one Redis or database command at a time.
 *
 * Any number of calls run interleaved: `submitChoice` by either user, choice timers and the
 * recovery pass. Each ends in `finalizeDecision`, which reads the decision, inserts the match
 * row, writes the decision with SET NX, reads again when it lost, and emits the outcome.
 * A crashed call is one that takes no further step.
 */
module DecisionProtocol {
  import opened Redis
  import opened Text

  type SessionId = nat
  type UserId = string
  type CallId = nat
  type MatchId = nat

  const SESSION_STATE_TTL_MS: nat := 3_600_000
  const CHOICE_WINDOW_MS: nat := 60_000
  const CHOICE_STATE_TTL_MS: nat := 7_200_000

  datatype Choice = MATCH | PASS
  datatype Outcome = Mutual(matchId: MatchId) | NonMutual
  datatype Session = Session(userA: UserId, userB: UserId)

  /** The hash of choices, with the expiry that PEXPIRE gave it, if any. */
  datatype Hash = Hash(fields: map<UserId, Choice>, expiresAt: Option<Time>) {
    predicate Lapsed(now: Time) { expiresAt.Some? && expiresAt.value < now }

    function Visible(now: Time): map<UserId, Choice> {
      if Lapsed(now) then map[] else fields
    }
  }

  /** The next command of a call. */
  datatype Pc =
    // submitChoice
    | FindSession(user: UserId, choice: Choice)
    | ReadEnded(user: UserId, choice: Choice)
    | GetDecision(user: UserId, choice: Choice)
    | EnsureDeadline(user: UserId, choice: Choice)
    | ReadOwnChoice(user: UserId, choice: Choice, deadline: Time)
    | WriteChoice(user: UserId, choice: Choice, deadline: Time)
    | ExpireChoices(deadline: Time)
    | ReadChoices(deadline: Time)
    // recoverChoiceTimeouts, one key
    | RecoverDecision
    | RecoverDeadline
    // finalizeDecision
    | ReadDecision(choiceA: Choice, choiceB: Choice)
    | UpsertMatch
    | WriteDecision(payload: Outcome)
    | ReadAgain(payload: Outcome)
    | Emit(payload: Outcome)
    | Returned

  datatype Call = Call(sid: SessionId, pc: Pc)

  datatype Event =
    | Stored(call: CallId, sid: SessionId, outcome: Outcome, at: Time)
    | Emitted(call: CallId, sid: SessionId, outcome: Outcome, at: Time)
    | Answered(call: CallId, sid: SessionId, outcome: Outcome, at: Time)

  datatype Keys = Keys(
    ended: map<SessionId, Cell<()>>,
    deadline: map<SessionId, Cell<Time>>,
    decision: map<SessionId, Cell<Outcome>>,
    choices: map<SessionId, Hash>)

  /** The match table, and what was ever written and by whom. */
  datatype History = History(
    matches: map<(UserId, UserId), MatchId>,  // the unique index on (userAId, userBId)
    submitted: set<(SessionId, UserId, Choice)>,
    windows: set<(SessionId, Time)>,
    log: set<Event>,
    first: map<SessionId, Event>)  // the first decision stored for each session

  datatype State = State(now: Time, rows: map<SessionId, Session>, keys: Keys, hist: History, calls: map<CallId, Call>)

  ghost predicate Init(s: State) {
    s.keys == Keys(map[], map[], map[], map[]) && s.hist == History(map[], {}, {}, {}, map[]) && s.calls == map[]
  }

  datatype Action =
    | Tick(to: Time)
    | EndSession(sid: SessionId)
    | SubmitChoice(call: CallId, sid: SessionId, user: UserId, choice: Choice)
    | ChoiceTimer(call: CallId, sid: SessionId, deadline: Time)
    | RecoverKey(call: CallId, sid: SessionId)
    | Run(call: CallId)

  ghost predicate Enabled(s: State, a: Action) {
    match a
    case Tick(to) => s.now <= to
    case EndSession(sid) => sid in s.rows
    case SubmitChoice(call, sid, _, _) => call !in s.calls
    // setTimeout never fires before its delay has passed
    case ChoiceTimer(call, sid, d) => call !in s.calls && sid in s.rows && (sid, d) in s.hist.windows && d <= s.now
    case RecoverKey(call, sid) => call !in s.calls && sid in s.rows
    case Run(call) => call in s.calls && !s.calls[call].pc.Returned?
  }

  function Goto(s: State, call: CallId, sid: SessionId, pc: Pc): State {
    s.(calls := s.calls[call := Call(sid, pc)])
  }

  function Answer(s: State, call: CallId, sid: SessionId, o: Outcome): State {
    Goto(s, call, sid, Returned).(hist := s.hist.(log := s.hist.log + {Answered(call, sid, o, s.now)}))
  }

  function DeadlineOf(s: State, sid: SessionId): Time {
    var c := CellOf(s.keys.deadline, sid);
    if c.Live(s.now) then c.value else s.now + CHOICE_WINDOW_MS
  }

  /** `ensureChoiceDeadline`. */
  function OpenWindow(s: State, sid: SessionId): State {
    var d := DeadlineOf(s, sid);
    s.(keys := s.keys.(deadline := SetNx(s.keys.deadline, sid, d, s.now, CHOICE_STATE_TTL_MS)),
       hist := s.hist.(windows := s.hist.windows + {(sid, d)}))
  }

  function HashOf(s: State, sid: SessionId): Hash {
    if sid in s.keys.choices then s.keys.choices[sid] else Hash(map[], None)
  }

  function OrPass(fields: map<UserId, Choice>, u: UserId): Choice {
    if u in fields then fields[u] else PASS
  }

  predicate Chose(fields: map<UserId, Choice>, u: UserId, c: Choice) {
    u in fields && fields[u] == c
  }

  predicate Submitting(pc: Pc) {
    pc.FindSession? || pc.ReadEnded? || pc.GetDecision? || pc.EnsureDeadline? || pc.ReadOwnChoice?
    || pc.WriteChoice? || pc.ExpireChoices? || pc.ReadChoices?
  }

  /** The commands of `submitChoice` and `evaluateChoices`. */
  function RunSubmit(s: State, call: CallId, sid: SessionId, pc: Pc): State
    requires Submitting(pc)
  {
    match pc
    case FindSession(user, choice) =>
      if sid in s.rows && (user == s.rows[sid].userA || user == s.rows[sid].userB)
      then Goto(s, call, sid, ReadEnded(user, choice))
      else Goto(s, call, sid, Returned)
    case ReadEnded(user, choice) =>
      Goto(s, call, sid, if CellOf(s.keys.ended, sid).Live(s.now) then GetDecision(user, choice) else Returned)
    case GetDecision(user, choice) =>
      var d := CellOf(s.keys.decision, sid);
      if d.Live(s.now) then Answer(s, call, sid, d.value)
      else Goto(s, call, sid, EnsureDeadline(user, choice))
    case EnsureDeadline(user, choice) =>
      Goto(OpenWindow(s, sid), call, sid, ReadOwnChoice(user, choice, DeadlineOf(s, sid)))
    case ReadOwnChoice(user, choice, d) =>
      Goto(s, call, sid,
           if user in HashOf(s, sid).Visible(s.now) then ReadChoices(d) else WriteChoice(user, choice, d))
    case WriteChoice(user, choice, d) =>
      var h := HashOf(s, sid);
      var h' := Hash(h.Visible(s.now)[user := choice], if h.Lapsed(s.now) then None else h.expiresAt);
      Goto(s, call, sid, ExpireChoices(d))
        .(keys := s.keys.(choices := s.keys.choices[sid := h']),
          hist := s.hist.(submitted := s.hist.submitted + {(sid, user, choice)}))
    case ExpireChoices(d) =>
      var h := HashOf(s, sid);
      var at := if s.now < d then d else s.now + 1;
      var h' := if h.Lapsed(s.now) then h else h.(expiresAt := Some(at));
      Goto(s, call, sid, ReadChoices(d)).(keys := s.keys.(choices := s.keys.choices[sid := h']))
    case ReadChoices(d) =>
      if sid !in s.rows then Goto(s, call, sid, Returned) else
      var Session(a, b) := s.rows[sid];
      var f := HashOf(s, sid).Visible(s.now);
      if Chose(f, a, PASS) || Chose(f, b, PASS)
         || (Chose(f, a, MATCH) && Chose(f, b, MATCH))
         || d <= s.now
      then Goto(s, call, sid, ReadDecision(OrPass(f, a), OrPass(f, b)))
      else Goto(s, call, sid, Returned)  // still pending
  }

  predicate Finalizing(pc: Pc) {
    pc.ReadDecision? || pc.UpsertMatch? || pc.WriteDecision? || pc.ReadAgain? || pc.Emit?
  }

  /** The commands of `finalizeDecision`. */
  function RunFinalize(s: State, call: CallId, sid: SessionId, pc: Pc): State
    requires Finalizing(pc)
  {
    match pc
    case ReadDecision(a, b) =>
      var d := CellOf(s.keys.decision, sid);
      if d.Live(s.now) then Answer(s, call, sid, d.value)
      else Goto(s, call, sid, if a == MATCH && b == MATCH then UpsertMatch else WriteDecision(NonMutual))
    case UpsertMatch =>
      if sid !in s.rows then Goto(s, call, sid, Returned) else
      var pair := CanonicalPair(s.rows[sid].userA, s.rows[sid].userB);
      var id := if pair in s.hist.matches then s.hist.matches[pair] else |s.hist.matches|;
      Goto(s, call, sid, WriteDecision(Mutual(id))).(hist := s.hist.(matches := s.hist.matches[pair := id]))
    case WriteDecision(payload) =>
      if CellOf(s.keys.decision, sid).Live(s.now) then Goto(s, call, sid, ReadAgain(payload))
      else
        var e := Stored(call, sid, payload, s.now);
        Goto(s, call, sid, Emit(payload))
          .(keys := s.keys.(decision := SetNx(s.keys.decision, sid, payload, s.now, CHOICE_STATE_TTL_MS)),
            hist := s.hist.(log := s.hist.log + {e},
                            first := if sid in s.hist.first then s.hist.first else s.hist.first[sid := e]))
    case ReadAgain(payload) =>
      var d := CellOf(s.keys.decision, sid);
      if d.Live(s.now) then Answer(s, call, sid, d.value) else Goto(s, call, sid, Emit(payload))
    case Emit(payload) =>
      Goto(s, call, sid, Returned)
        .(hist := s.hist.(log := s.hist.log + {Emitted(call, sid, payload, s.now),
                                               Answered(call, sid, payload, s.now)}))
  }

  /** The two reads of `recoverChoiceTimeouts` for one deadline key. */
  function RunRecover(s: State, call: CallId, sid: SessionId, pc: Pc): State
    requires pc.RecoverDecision? || pc.RecoverDeadline?
  {
    match pc
    case RecoverDecision =>
      Goto(s, call, sid, if CellOf(s.keys.decision, sid).Live(s.now) then Returned else RecoverDeadline)
    case RecoverDeadline =>
      var c := CellOf(s.keys.deadline, sid);
      Goto(s, call, sid, if c.Live(s.now) && c.value <= s.now then ReadDecision(PASS, PASS) else Returned)
  }

  function RunCall(s: State, call: CallId): State
    requires call in s.calls && !s.calls[call].pc.Returned?
  {
    var Call(sid, pc) := s.calls[call];
    if Submitting(pc) then RunSubmit(s, call, sid, pc)
    else if Finalizing(pc) then RunFinalize(s, call, sid, pc)
    else RunRecover(s, call, sid, pc)
  }

  ghost function Apply(s: State, a: Action): State
    requires Enabled(s, a)
  {
    match a
    case Tick(to) => s.(now := to)
    case EndSession(sid) =>
      if CellOf(s.keys.ended, sid).Live(s.now) then s
      else OpenWindow(s.(keys := s.keys.(ended := SetNx(s.keys.ended, sid, (), s.now, SESSION_STATE_TTL_MS))), sid)
    case SubmitChoice(call, sid, user, choice) => Goto(s, call, sid, FindSession(user, choice))
    case ChoiceTimer(call, sid, _) => Goto(s, call, sid, ReadDecision(PASS, PASS))
    case RecoverKey(call, sid) => Goto(s, call, sid, RecoverDecision)
    case Run(call) => RunCall(s, call)
  }

  /** A run: `acts` schedules the commands of any number of calls in any order, from an empty Redis. */
  ghost predicate IsRun(tr: seq<State>, acts: seq<Action>) {
    && |tr| == |acts| + 1 && Init(tr[0])
    && forall i :: 0 <= i < |acts| ==> Enabled(tr[i], acts[i]) && tr[i + 1] == Apply(tr[i], acts[i])
  }

  // ---- What a decision must rest on ----

  ghost predicate BothMatched(s: State, sid: SessionId) {
    && sid in s.rows
    && (sid, s.rows[sid].userA, MATCH) in s.hist.submitted
    && (sid, s.rows[sid].userB, MATCH) in s.hist.submitted
  }

  ghost predicate SomePassed(s: State, sid: SessionId) {
    && sid in s.rows
    && ((sid, s.rows[sid].userA, PASS) in s.hist.submitted || (sid, s.rows[sid].userB, PASS) in s.hist.submitted)
  }

  ghost predicate WindowClosed(s: State, sid: SessionId) {
    exists d :: (sid, d) in s.hist.windows && d <= s.now
  }

  ghost predicate MayPass(s: State, sid: SessionId) {
    SomePassed(s, sid) || WindowClosed(s, sid)
  }

  /** A mutual outcome has both MATCH choices and the match row; any other has a PASS or a closed window. */
  ghost predicate Justified(s: State, sid: SessionId, o: Outcome) {
    match o
    case Mutual(id) =>
      && BothMatched(s, sid)
      && var pair := CanonicalPair(s.rows[sid].userA, s.rows[sid].userB);
         pair in s.hist.matches && s.hist.matches[pair] == id
    case NonMutual => MayPass(s, sid)
  }

  // ---- The invariant ----

  function FirstExpiry(e: Event): Time { e.at + CHOICE_STATE_TTL_MS }

  /** What a session's first stored decision forces on anything stored, emitted or answered in its lifetime. */
  ghost predicate AgreesWithFirst(s: State, call: CallId, sid: SessionId, o: Outcome, at: Time, acts: bool) {
    && sid in s.hist.first
    && s.hist.first[sid].at <= at
    && (at <= FirstExpiry(s.hist.first[sid]) ==>
          o == s.hist.first[sid].outcome && (acts ==> call == s.hist.first[sid].call))
  }

  ghost predicate EventOk(s: State, e: Event) {
    && e.at <= s.now
    && Justified(s, e.sid, e.outcome)
    && AgreesWithFirst(s, e.call, e.sid, e.outcome, e.at, !e.Answered?)
  }

  ghost predicate PcOk(s: State, call: CallId, sid: SessionId, pc: Pc) {
    match pc
    case FindSession(_, _) => true
    case ReadEnded(u, _) => IsUser(s, sid, u)
    case GetDecision(u, _) => IsUser(s, sid, u)
    case EnsureDeadline(u, _) => IsUser(s, sid, u)
    case ReadOwnChoice(u, _, d) => IsUser(s, sid, u) && (sid, d) in s.hist.windows
    case WriteChoice(u, _, d) => IsUser(s, sid, u) && (sid, d) in s.hist.windows
    case ExpireChoices(d) => (sid, d) in s.hist.windows
    case ReadChoices(d) => (sid, d) in s.hist.windows
    case RecoverDecision => true
    case RecoverDeadline => true
    case ReadDecision(a, b) => if a == MATCH && b == MATCH then BothMatched(s, sid) else MayPass(s, sid)
    case UpsertMatch => BothMatched(s, sid)
    case WriteDecision(o) => Justified(s, sid, o)
    case ReadAgain(o) => Justified(s, sid, o) && sid in s.hist.first
    case Emit(o) => Justified(s, sid, o) && AgreesWithFirst(s, call, sid, o, s.now, true)
    case Returned => true
  }

  ghost predicate IsUser(s: State, sid: SessionId, u: UserId) {
    sid in s.rows && (u == s.rows[sid].userA || u == s.rows[sid].userB)
  }

  ghost predicate DecisionOk(s: State, sid: SessionId, c: Cell<Outcome>) {
    && c.Cell?
    && sid in s.hist.first
    && Justified(s, sid, c.value)
    && (s.now <= FirstExpiry(s.hist.first[sid]) ==>
          c == Cell(s.hist.first[sid].outcome, FirstExpiry(s.hist.first[sid])))
  }

  ghost predicate CallsOk(s: State) {
    forall c :: c in s.calls ==> PcOk(s, c, s.calls[c].sid, s.calls[c].pc)
  }

  ghost predicate EventsOk(s: State) {
    forall e :: e in s.hist.log ==> EventOk(s, e)
  }

  ghost predicate FirstOk(s: State) {
    forall sid :: sid in s.hist.first ==>
      && s.hist.first[sid] in s.hist.log && s.hist.first[sid].Stored? && s.hist.first[sid].sid == sid
      && sid in s.keys.decision
  }

  ghost predicate CellsOk(s: State) {
    && (forall sid :: sid in s.keys.decision ==> DecisionOk(s, sid, s.keys.decision[sid]))
    && (forall sid :: sid in s.keys.deadline ==>
          s.keys.deadline[sid].Cell? && (sid, s.keys.deadline[sid].value) in s.hist.windows)
    && (forall sid, u :: sid in s.keys.choices && u in s.keys.choices[sid].fields ==>
          (sid, u, s.keys.choices[sid].fields[u]) in s.hist.submitted)
  }

  ghost predicate MatchesOk(s: State) {
    forall p :: p in s.hist.matches ==> !Less(p.1, p.0)
  }

  ghost predicate Inv(s: State) {
    CallsOk(s) && EventsOk(s) && FirstOk(s) && CellsOk(s) && MatchesOk(s)
  }

  // ---- Every step keeps the invariant ----

  /** History and match rows only grow, and the first decision of a session is never replaced. */
  ghost predicate HistoryGrows(h: History, h': History) {
    && h.submitted <= h'.submitted && h.windows <= h'.windows && h.log <= h'.log
    && (forall p :: p in h.matches ==> p in h'.matches && h'.matches[p] == h.matches[p])
    && (forall sid :: sid in h.first ==> sid in h'.first && h'.first[sid] == h.first[sid])
  }

  ghost predicate Grows(s: State, s': State) {
    s'.rows == s.rows && s.now <= s'.now && HistoryGrows(s.hist, s'.hist)
  }

  lemma SubmitGrows(s: State, call: CallId, sid: SessionId, pc: Pc)
    requires Submitting(pc)
    ensures Grows(s, RunSubmit(s, call, sid, pc))
  {
  }

  lemma FinalizeGrows(s: State, call: CallId, sid: SessionId, pc: Pc)
    requires Finalizing(pc)
    ensures Grows(s, RunFinalize(s, call, sid, pc))
  {
  }

  lemma StepGrows(s: State, a: Action)
    requires Enabled(s, a)
    ensures Grows(s, Apply(s, a))
  {
    if a.Run? {
      var Call(sid, pc) := s.calls[a.call];
      if Submitting(pc) {
        SubmitGrows(s, a.call, sid, pc);
      } else if Finalizing(pc) {
        FinalizeGrows(s, a.call, sid, pc);
      }
    }
  }

  lemma JustifiedGrows(s: State, s': State, sid: SessionId, o: Outcome)
    requires Grows(s, s')
    ensures MayPass(s, sid) ==> MayPass(s', sid)
    ensures Justified(s, sid, o) ==> Justified(s', sid, o)
  {
  }

  lemma PcGrows(s: State, s': State, call: CallId, sid: SessionId, pc: Pc)
    requires Grows(s, s') && PcOk(s, call, sid, pc)
    ensures PcOk(s', call, sid, pc)
  {
  }

  /** Calls that did not move stay in order, so only the one that moved needs looking at. */
  lemma CallsGrow(s: State, s': State)
    requires CallsOk(s) && Grows(s, s')
    requires forall c :: c in s'.calls ==>
      (c in s.calls && s'.calls[c] == s.calls[c]) || PcOk(s', c, s'.calls[c].sid, s'.calls[c].pc)
    ensures CallsOk(s')
  {
  }

  lemma EventsGrow(s: State, s': State, added: set<Event>)
    requires EventsOk(s) && Grows(s, s')
    requires s'.hist.log == s.hist.log + added
    requires forall e :: e in added ==> EventOk(s', e)
    ensures EventsOk(s')
  {
  }

  lemma CellsGrow(s: State, s': State)
    requires CellsOk(s) && Grows(s, s')
    requires s'.keys.decision == s.keys.decision
    requires s'.keys.deadline == s.keys.deadline && s'.keys.choices == s.keys.choices
    ensures CellsOk(s')
  {
  }

  /** A step that moves `call` on, perhaps with new events, and touches no key. */
  lemma QuietStep(s: State, s': State, added: set<Event>)
    requires Inv(s) && Grows(s, s')
    requires s'.keys == s.keys && s'.hist == s.hist.(log := s.hist.log + added)
    requires forall e :: e in added ==> EventOk(s', e)
    requires forall c :: c in s'.calls ==>
      (c in s.calls && s'.calls[c] == s.calls[c]) || PcOk(s', c, s'.calls[c].sid, s'.calls[c].pc)
    ensures Inv(s')
  {
    CallsGrow(s, s');
    EventsGrow(s, s', added);
    CellsGrow(s, s');
  }

  /** Opening the choice window keeps the cells in order. */
  lemma OpenWindowCells(s: State, s': State, sid: SessionId)
    requires CellsOk(s) && Grows(s, s')
    requires s'.keys.decision == s.keys.decision && s'.keys.choices == s.keys.choices && s'.now == s.now
    requires s'.keys.deadline == OpenWindow(s, sid).keys.deadline && s'.hist.windows == OpenWindow(s, sid).hist.windows
    ensures CellsOk(s') && (sid, DeadlineOf(s, sid)) in s'.hist.windows
  {
  }

  lemma EndSessionKeepsInv(s: State, sid: SessionId)
    requires Inv(s) && Enabled(s, EndSession(sid))
    ensures Inv(Apply(s, EndSession(sid)))
  {
    var s' := Apply(s, EndSession(sid));
    StepGrows(s, EndSession(sid));
    if s' != s {
      CallsGrow(s, s');
      EventsGrow(s, s', {});
      OpenWindowCells(s, s', sid);
    }
  }

  /** Whoever reads a live decision is answered with the session's decision of that lifetime. */
  lemma LiveAnswerOk(s: State, s': State, call: CallId, sid: SessionId)
    requires Inv(s) && CellOf(s.keys.decision, sid).Live(s.now)
    requires s' == Answer(s, call, sid, CellOf(s.keys.decision, sid).value)
    ensures Inv(s')
  {
    assert DecisionOk(s, sid, s.keys.decision[sid]);
    var e := Answered(call, sid, s.keys.decision[sid].value, s.now);
    assert EventOk(s, s.hist.first[sid]);
    JustifiedGrows(s, s', sid, e.outcome);
    QuietStep(s, s', {e});
  }

  /** The write of a choice and of its expiry: the hash only ever holds submitted choices. */
  lemma ChoiceWriteKeepsInv(s: State, call: CallId)
    requires Inv(s) && call in s.calls && (s.calls[call].pc.WriteChoice? || s.calls[call].pc.ExpireChoices?)
    ensures Inv(RunCall(s, call))
  {
    var Call(sid, pc) := s.calls[call];
    var s' := RunSubmit(s, call, sid, pc);
    SubmitGrows(s, call, sid, pc);
    assert PcOk(s, call, sid, pc);
    CallsGrow(s, s');
    EventsGrow(s, s', {});
    ChoiceCells(s, s', sid);
  }

  lemma ChoiceCells(s: State, s': State, sid: SessionId)
    requires CellsOk(s) && Grows(s, s')
    requires sid in s'.keys.choices && s'.keys == s.keys.(choices := s.keys.choices[sid := s'.keys.choices[sid]])
    requires forall u :: u in s'.keys.choices[sid].fields ==>
               (sid, u, s'.keys.choices[sid].fields[u]) in s'.hist.submitted
    ensures CellsOk(s')
  {
  }

  lemma EnsureDeadlineKeepsInv(s: State, call: CallId)
    requires Inv(s) && call in s.calls && s.calls[call].pc.EnsureDeadline?
    ensures Inv(RunCall(s, call))
  {
    var Call(sid, pc) := s.calls[call];
    var s' := RunSubmit(s, call, sid, pc);
    SubmitGrows(s, call, sid, pc);
    assert PcOk(s, call, sid, pc);
    OpenWindowCells(s, s', sid);
    CallsGrow(s, s');
    EventsGrow(s, s', {});
  }

  /** `evaluateChoices` only goes on to finalize with choices that justify the outcome. */
  lemma ReadChoicesOk(s: State, call: CallId)
    requires Inv(s) && call in s.calls && s.calls[call].pc.ReadChoices?
    ensures var c := RunCall(s, call).calls[call]; PcOk(s, call, c.sid, c.pc)
  {
  }

  lemma SubmitKeepsInv(s: State, call: CallId)
    requires Inv(s) && call in s.calls && Submitting(s.calls[call].pc)
    ensures Inv(RunCall(s, call))
  {
    var Call(sid, pc) := s.calls[call];
    var s' := RunSubmit(s, call, sid, pc);
    if pc.WriteChoice? || pc.ExpireChoices? {
      ChoiceWriteKeepsInv(s, call);
    } else if pc.EnsureDeadline? {
      EnsureDeadlineKeepsInv(s, call);
    } else if pc.GetDecision? && CellOf(s.keys.decision, sid).Live(s.now) {
      LiveAnswerOk(s, s', call, sid);
    } else {
      if pc.ReadChoices? { ReadChoicesOk(s, call); } else { assert PcOk(s, call, sid, pc); }
      Moved(s, s', call);
    }
  }

  /** A command that only moves its call to a point that is in order. */
  lemma Moved(s: State, s': State, call: CallId)
    requires Inv(s) && call in s'.calls
    requires s' == Goto(s, call, s'.calls[call].sid, s'.calls[call].pc)
    requires PcOk(s, call, s'.calls[call].sid, s'.calls[call].pc)
    ensures Inv(s')
  {
    PcGrows(s, s', call, s'.calls[call].sid, s'.calls[call].pc);
    QuietStep(s, s', {});
  }

  lemma StoreCells(s: State, s': State, sid: SessionId, o: Outcome)
    requires CellsOk(s) && Grows(s, s') && s'.now == s.now
    requires s'.keys == s.keys.(decision := s.keys.decision[sid := Cell(o, s.now + CHOICE_STATE_TTL_MS)])
    requires Justified(s', sid, o) && sid in s'.hist.first
    requires s.now <= FirstExpiry(s'.hist.first[sid]) ==>
               s'.hist.first[sid].outcome == o && s'.hist.first[sid].at == s.now
    ensures CellsOk(s')
  {
  }

  /** The SET NX that wins: it stores a justified decision over a key that is not live. */
  lemma StoreKeepsInv(s: State, call: CallId)
    requires Inv(s) && call in s.calls && s.calls[call].pc.WriteDecision?
    requires !CellOf(s.keys.decision, s.calls[call].sid).Live(s.now)
    ensures Inv(RunCall(s, call))
  {
    var Call(sid, pc) := s.calls[call];
    var s' := RunFinalize(s, call, sid, pc);
    FinalizeGrows(s, call, sid, pc);
    assert PcOk(s, call, sid, pc);
    JustifiedGrows(s, s', sid, pc.payload);
    if sid in s.hist.first {
      LapsedAfterFirst(s, sid);
      assert EventOk(s, s.hist.first[sid]);
    }
    CallsGrow(s, s');
    EventsGrow(s, s', {Stored(call, sid, pc.payload, s.now)});
    StoreCells(s, s', sid, pc.payload);
  }

  lemma UpsertKeepsInv(s: State, call: CallId)
    requires Inv(s) && call in s.calls && s.calls[call].pc.UpsertMatch?
    ensures Inv(RunCall(s, call))
  {
    var Call(sid, pc) := s.calls[call];
    var s' := RunFinalize(s, call, sid, pc);
    FinalizeGrows(s, call, sid, pc);
    assert PcOk(s, call, sid, pc);
    CanonicalPairSymmetric(s.rows[sid].userA, s.rows[sid].userB);
    CallsGrow(s, s');
    EventsGrow(s, s', {});
    CellsGrow(s, s');
  }

  lemma EmitKeepsInv(s: State, call: CallId)
    requires Inv(s) && call in s.calls && s.calls[call].pc.Emit?
    ensures Inv(RunCall(s, call))
  {
    var Call(sid, pc) := s.calls[call];
    var s' := RunFinalize(s, call, sid, pc);
    FinalizeGrows(s, call, sid, pc);
    assert PcOk(s, call, sid, pc);
    JustifiedGrows(s, s', sid, pc.payload);
    QuietStep(s, s', {Emitted(call, sid, pc.payload, s.now), Answered(call, sid, pc.payload, s.now)});
  }

  lemma FinalizeKeepsInv(s: State, call: CallId)
    requires Inv(s) && call in s.calls && Finalizing(s.calls[call].pc)
    ensures Inv(RunCall(s, call))
  {
    var Call(sid, pc) := s.calls[call];
    var s' := RunFinalize(s, call, sid, pc);
    var live := CellOf(s.keys.decision, sid).Live(s.now);
    if pc.UpsertMatch? {
      UpsertKeepsInv(s, call);
    } else if pc.Emit? {
      EmitKeepsInv(s, call);
    } else if pc.WriteDecision? && !live {
      StoreKeepsInv(s, call);
    } else if !pc.WriteDecision? && live {
      LiveAnswerOk(s, s', call, sid);
    } else {
      assert PcOk(s, call, sid, pc);
      if pc.ReadAgain? {
        LapsedAfterFirst(s, sid);
        assert EventOk(s, s.hist.first[sid]);
      } else if pc.WriteDecision? {
        assert DecisionOk(s, sid, s.keys.decision[sid]);
      }
      Moved(s, s', call);
    }
  }

  /** Once a first decision exists, the key can be dead only after that decision's two hours. */
  lemma LapsedAfterFirst(s: State, sid: SessionId)
    requires Inv(s) && sid in s.hist.first && !CellOf(s.keys.decision, sid).Live(s.now)
    ensures FirstExpiry(s.hist.first[sid]) < s.now
  {
  }

  lemma RecoverKeepsInv(s: State, call: CallId)
    requires Inv(s) && call in s.calls && (s.calls[call].pc.RecoverDecision? || s.calls[call].pc.RecoverDeadline?)
    ensures Inv(RunCall(s, call))
  {
    var sid := s.calls[call].sid;
    var s' := RunCall(s, call);
    if s'.calls[call].pc.ReadDecision? {
      assert (sid, s.keys.deadline[sid].value) in s.hist.windows;
      assert WindowClosed(s, sid);
    }
    Moved(s, s', call);
  }

  lemma StepKeepsInv(s: State, a: Action)
    requires Inv(s) && Enabled(s, a)
    ensures Inv(Apply(s, a))
  {
    var s' := Apply(s, a);
    match a
    case EndSession(sid) => EndSessionKeepsInv(s, sid);
    case Run(call) =>
      if Submitting(s.calls[call].pc) {
        SubmitKeepsInv(s, call);
      } else if Finalizing(s.calls[call].pc) {
        FinalizeKeepsInv(s, call);
      } else {
        RecoverKeepsInv(s, call);
      }
    case Tick(_) =>
      StepGrows(s, a);
      QuietStep(s, s', {});
    case SubmitChoice(call, sid, _, _) => Moved(s, s', call);
    case ChoiceTimer(call, sid, d) =>
      assert WindowClosed(s, sid);
      Moved(s, s', call);
    case RecoverKey(call, sid) => Moved(s, s', call);
  }

  lemma {:induction false} RunInv(tr: seq<State>, acts: seq<Action>, i: nat)
    requires IsRun(tr, acts) && i < |tr|
    ensures Inv(tr[i])
  {
    if i > 0 {
      RunInv(tr, acts, i - 1);
      StepKeepsInv(tr[i - 1], acts[i - 1]);
    }
  }

  // ---- Main results ----

  /** Decision agreement. In every run, every outcome that is stored, emitted or answered for a
      session until its first decision lapses is that first decision, and only the call that
      stored it stores or emits anything; so an outcome event from any other call is later than
      the two hours of the first decision. */
  lemma DecisionAgreement(tr: seq<State>, acts: seq<Action>, i: nat, e: Event)
    requires IsRun(tr, acts) && i < |tr| && e in tr[i].hist.log
    ensures e.sid in tr[i].hist.first
    ensures var f := tr[i].hist.first[e.sid];
            && f.Stored? && f in tr[i].hist.log && f.at <= e.at
            && (e.at <= f.at + CHOICE_STATE_TTL_MS ==> e.outcome == f.outcome)
            && (!e.Answered? && e.call != f.call ==> f.at + CHOICE_STATE_TTL_MS < e.at)
  {
    RunInv(tr, acts, i);
    assert EventOk(tr[i], e);
  }

  /** A live decision is never overwritten: it is still there, unchanged, at any later point of
      the run that is within its lifetime. */
  lemma {:induction false} DecisionStable(tr: seq<State>, acts: seq<Action>, i: nat, j: nat, sid: SessionId)
    requires IsRun(tr, acts) && i <= j < |tr|
    requires CellOf(tr[i].keys.decision, sid).Live(tr[j].now)
    ensures CellOf(tr[j].keys.decision, sid) == CellOf(tr[i].keys.decision, sid)
  {
    if i < j {
      StepGrows(tr[j - 1], acts[j - 1]);
      DecisionStable(tr, acts, i, j - 1, sid);
      LiveDecisionKept(tr[j - 1], acts[j - 1], sid);
    }
  }

  lemma LiveDecisionKept(s: State, a: Action, sid: SessionId)
    requires Enabled(s, a) && CellOf(s.keys.decision, sid).Live(s.now)
    ensures CellOf(Apply(s, a).keys.decision, sid) == CellOf(s.keys.decision, sid)
  {
  }

  /** Decision validity. Whatever is stored, emitted or answered rests on what the users did:
      a mutual outcome on both MATCH choices and an existing row for the canonical pair, any
      other on a PASS or on a window that has closed. */
  lemma DecisionValidity(tr: seq<State>, acts: seq<Action>, i: nat, e: Event)
    requires IsRun(tr, acts) && i < |tr| && e in tr[i].hist.log
    ensures Justified(tr[i], e.sid, e.outcome)
  {
    RunInv(tr, acts, i);
    assert EventOk(tr[i], e);
  }

  /** Over all sessions there is at most one match row per unordered pair of users. */
  lemma OneMatchPerPair(tr: seq<State>, acts: seq<Action>, i: nat, a: UserId, b: UserId)
    requires IsRun(tr, acts) && i < |tr|
    requires (a, b) in tr[i].hist.matches && (b, a) in tr[i].hist.matches
    ensures a == b
  {
    RunInv(tr, acts, i);
    LessTotal(a, b);
  }

  /** The bound of two hours is needed, and the second read decides: a call that lost the SET NX
      emits the outcome as well exactly when the decision has lapsed by the time it reads again. */
  lemma LoserEmitsIffLapsed(tr: seq<State>, acts: seq<Action>, call: CallId)
    requires IsRun(tr, acts) && call in tr[|acts|].calls && tr[|acts|].calls[call].pc.ReadAgain?
    ensures var s := tr[|acts|];
            var s1 := Apply(s, Run(call));
            var sid := s.calls[call].sid;
            if CellOf(s.keys.decision, sid).Live(s.now) then
              s1.calls[call].pc.Returned? && Answered(call, sid, s.keys.decision[sid].value, s.now) in s1.hist.log
            else
              var s2 := Apply(s1, Run(call));
              && IsRun(tr + [s1, s2], acts + [Run(call), Run(call)])
              && Emitted(call, sid, s.calls[call].pc.payload, s.now) in s2.hist.log
  {
    var s := tr[|acts|];
    var s1 := Apply(s, Run(call));
    if !CellOf(s.keys.decision, s.calls[call].sid).Live(s.now) {
      var s2 := Apply(s1, Run(call));
      ExtendRun(tr, acts, Run(call));
      ExtendRun(tr + [s1], acts + [Run(call)], Run(call));
      assert tr + [s1] + [s2] == tr + [s1, s2] && acts + [Run(call)] + [Run(call)] == acts + [Run(call), Run(call)];
    }
  }

  lemma ExtendRun(tr: seq<State>, acts: seq<Action>, a: Action)
    requires IsRun(tr, acts) && Enabled(tr[|acts|], a)
    ensures IsRun(tr + [Apply(tr[|acts|], a)], acts + [a])
  {
  }

  /** Two timers of one session, both about to write the decision. */
  function RaceState(): State {
    var w := WriteDecision(NonMutual);
    var d := CHOICE_WINDOW_MS;
    State(d, map[7 := Session("ann", "bob")],
          Keys(map[7 := Cell((), SESSION_STATE_TTL_MS)], map[7 := Cell(d, CHOICE_STATE_TTL_MS)], map[], map[]),
          History(map[], {}, {(7, d)}, {}, map[]), map[1 := Call(7, w), 2 := Call(7, w)])
  }

  lemma RaceReachable() returns (tr: seq<State>, acts: seq<Action>)
    ensures IsRun(tr, acts) && tr[|acts|] == RaceState()
  {
    var s6 := RaceState();
    var d := CHOICE_WINDOW_MS;
    var s2 := s6.(calls := map[]);
    var s1 := s2.(now := 0);
    var s0 := s1.(keys := Keys(map[], map[], map[], map[]), hist := History(map[], {}, {}, {}, map[]));
    var s3 := Goto(s2, 1, 7, ReadDecision(PASS, PASS));
    var s4 := Goto(s3, 2, 7, ReadDecision(PASS, PASS));
    var s5 := Goto(s4, 1, 7, WriteDecision(NonMutual));
    tr := [s0, s1, s2, s3, s4, s5, s6];
    acts := [EndSession(7), Tick(d), ChoiceTimer(1, 7, d), ChoiceTimer(2, 7, d), Run(1), Run(2)];
    assert Apply(s0, acts[0]) == s1;
    assert Apply(s4, acts[4]) == s5;
    assert Apply(s5, acts[5]) == s6;
  }

  /** Such a call exists: two timers of one session race, and the loser stalls past the lapse. */
  lemma LateLoserReachable() returns (tr: seq<State>, acts: seq<Action>)
    ensures IsRun(tr, acts)
    ensures var s := tr[|acts|];
            2 in s.calls && s.calls[2] == Call(7, ReadAgain(NonMutual)) && !CellOf(s.keys.decision, 7).Live(s.now)
  {
    tr, acts := RaceReachable();
    var s1 := Apply(RaceState(), Run(1));
    assert CellOf(s1.keys.decision, 7) == Cell(NonMutual, CHOICE_WINDOW_MS + CHOICE_STATE_TTL_MS);
    ExtendRun(tr, acts, Run(1));
    tr, acts := tr + [s1], acts + [Run(1)];
    var s2 := Apply(s1, Run(2));
    ExtendRun(tr, acts, Run(2));
    tr, acts := tr + [s2], acts + [Run(2)];
    var late := Tick(CHOICE_WINDOW_MS + CHOICE_STATE_TTL_MS + 1);
    ExtendRun(tr, acts, late);
    tr, acts := tr + [Apply(s2, late)], acts + [late];
  }
}
