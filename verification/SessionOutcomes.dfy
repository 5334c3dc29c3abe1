/**
 * What the operations of `SessionLifecycle` do, in terms of keys, times in milliseconds and choices; and
 * why, in every run of them, a session was decided as it was.
 */
module SessionOutcomes {
  import opened Redis
  import opened SessionLifecycle
  import D = DecisionProtocol

  // ---- Starting and ending ----

  /** A session that is not locked gets its state for an hour and an end timer after 45 s, or is ended
      at once where the body throws; a locked one is left alone. */
  lemma StartOnce(s: Status, now: Time, users: D.Session, fault: Fault)
    ensures var s' := Start(s, now, users, fault);
            && (s.keys.lock.Live(now) ==> s' == s)
            && (!s.keys.lock.Live(now) ==>
                  && s'.keys.lock == Cell((), now + 10_000)
                  && s'.keys.state == (if fault.BeforePersist? then s.keys.state
                                       else Cell(Info(users, now + 45_000), now + 3_600_000))
                  && (fault.NoFault? ==>
                        s'.endTimer == Some(now + 45_000) && s'.keys.ended == s.keys.ended && s'.sent == s.sent)
                  && (!fault.NoFault? ==> s'.keys.ended.Live(now))
                  && s'.keys.choices == s.keys.choices && s'.keys.decision == s.keys.decision)
  {
  }

  /** The end is marked for an hour and sent once; it opens a window of 60 s, kept for two hours, if none is
      open, and swaps the end timer for one at the deadline. An ended session is left alone. */
  lemma EndOpensWindow(s: Status, now: Time)
    ensures var s' := End(s, now);
            && (s.keys.ended.Live(now) ==> s' == s)
            && (!s.keys.ended.Live(now) ==>
                  && s'.keys.ended == Cell((), now + 3_600_000)
                  && s'.keys.deadline == (if s.keys.deadline.Live(now) then s.keys.deadline
                                          else Cell(now + 60_000, now + 7_200_000))
                  && s'.endTimer == None && s'.choiceTimer == Some(s'.keys.deadline.value)
                  && s'.sent == s.sent.(ends := s.sent.ends + 1)
                  && s'.keys.(ended := s.keys.ended, deadline := s.keys.deadline) == s.keys)
  {
  }

  /** A decision that is live stands; otherwise the outcome is stored for two hours and sent, once. */
  lemma FinalizeOnce(s: Status, now: Time, o: Outcome)
    ensures var s' := Finalize(s, now, o);
            && (s.keys.decision.Live(now) ==> s' == s)
            && (!s.keys.decision.Live(now) ==>
                  && s'.keys == s.keys.(decision := Cell(o, now + 7_200_000))
                  && s'.sent == s.sent.(outcomes := s.sent.outcomes + [o])
                  && s'.choiceTimer == None && s'.endTimer == s.endTimer)
  {
  }

  // ---- Submitting ----

  /** The choice of `u` that can be seen now. */
  predicate Picked(k: Keys, now: Time, u: UserId, c: Choice) {
    k.choices.Live(now) && u in k.choices.value && k.choices.value[u] == c
  }

  predicate HasPicked(k: Keys, now: Time, u: UserId) { Picked(k, now, u, D.MATCH) || Picked(k, now, u, D.PASS) }

  /** The first choice stands: the submitter's is the one stored before, or else this one, and is seen until
      the deadline; nobody else's changes. */
  ghost predicate FirstChoiceStands(k: Keys, k': Keys, now: Time, user: UserId, choice: Choice, deadline: Time) {
    && (forall u, c :: u != user ==> (Picked(k', now, u, c) <==> Picked(k, now, u, c)))
    && (forall c :: Picked(k', now, user, c) <==>
                      if HasPicked(k, now, user) then Picked(k, now, user, c) else c == choice)
    && (!HasPicked(k, now, user) ==> k'.choices.expiresAt == if now < deadline then deadline else now + 1)
    && k'.(choices := k.choices) == k
  }

  lemma RecordIsFirstChoice(k: Keys, now: Time, user: UserId, choice: Choice)
    ensures FirstChoiceStands(k, RecordChoice(k, now, user, choice), now, user, choice, DeadlineOf(k, now))
  {
  }

  /** Somebody passes, both match, or the window is over. */
  predicate MustDecide(k: Keys, now: Time, users: D.Session, deadline: Time) {
    || Picked(k, now, users.userA, D.PASS) || Picked(k, now, users.userB, D.PASS)
    || (Picked(k, now, users.userA, D.MATCH) && Picked(k, now, users.userB, D.MATCH))
    || deadline <= now
  }

  /** The answer to a submission, from the choices that can be seen after it. */
  ghost predicate Answered(s: Status, now: Time, users: D.Session, user: UserId, choice: Choice, s': Status,
                           reply: Reply)
  {
    var d := if s.keys.deadline.Live(now) then s.keys.deadline.value else now + 60_000;
    if !s.keys.ended.Live(now) then reply == NotEnded && s' == s
    else if s.keys.decision.Live(now) then
      reply == Resolved(s.keys.decision.value) && s'.keys == s.keys && s'.sent.outcomes == s.sent.outcomes
    else
      && s'.keys.deadline == (if s.keys.deadline.Live(now) then s.keys.deadline else Cell(d, now + 7_200_000))
      && FirstChoiceStands(s.keys.(deadline := s'.keys.deadline), s'.keys.(decision := s.keys.decision), now,
                           user, choice, d)
      && if MustDecide(s'.keys, now, users, d) then
           && reply.Resolved?
           && (reply.outcome.Mutual? <==>
                 Picked(s'.keys, now, users.userA, D.MATCH) && Picked(s'.keys, now, users.userB, D.MATCH))
           && s'.keys.decision == Cell(reply.outcome, now + 7_200_000)
           && s'.sent.outcomes == s.sent.outcomes + [reply.outcome]
         else
           reply == Pending(d) && s'.keys.decision == s.keys.decision && s'.sent == s.sent
  }

  lemma SubmitAnswers(s: Status, now: Time, users: D.Session, user: UserId, choice: Choice, m: D.MatchId)
    ensures var (s', reply) := Submit(s, now, users, user, choice, m); Answered(s, now, users, user, choice, s', reply)
  {
    if s.keys.ended.Live(now) && !s.keys.decision.Live(now) {
      RecordIsFirstChoice(EnsureDeadline(s.keys, now), now, user, choice);
    }
  }

  // ---- Recovering ----

  /** Recovery of an undecided session with a live deadline and known participants waits for the deadline:
      until then it changes nothing and sets the timer for it, and from then on it decides, not mutual.
      Any other session is left alone. */
  lemma KeyRecoveryWaits(s: Status, now: Time, hasRow: bool)
    ensures var s' := RecoverChoice(s, now, hasRow);
            if s.keys.decision.Live(now) || !s.keys.deadline.Live(now) || !(s.keys.state.Live(now) || hasRow)
            then s' == s
            else if now < s.keys.deadline.value then
              s'.keys == s.keys && s'.sent == s.sent && s'.endTimer == s.endTimer &&
              s'.choiceTimer == Some(s.keys.deadline.value)
            else
              s'.keys == s.keys.(decision := Cell(D.NonMutual, now + 7_200_000)) &&
              s'.sent == s.sent.(outcomes := s.sent.outcomes + [D.NonMutual])
  {
  }

  // ---- Why a session was decided as it was ----

  /** The window of an ended session closes 60 s after its end, and its timer is set for that time. */
  ghost predicate OnTime(s: Status) {
    && (s.keys.ended.Cell? ==>
          s.keys.deadline.Cell? && s.keys.deadline.value == s.keys.ended.expiresAt - 3_600_000 + 60_000)
    && (s.choiceTimer.Some? ==> s.keys.deadline.Cell? && s.choiceTimer.value == s.keys.deadline.value)
  }

  lemma SubmissionOnTime(w: World, a: Action, id: SessionId)
    requires Inv(w) && Enabled(w, a) && OnTime(At(w, id)) && a.SubmitChoice? && a.id == id
    ensures OnTime(At(Apply(w, a), id))
  {
    var s := At(w, id);
    SubmitAnswers(s, w.now, w.rows[id], a.user, a.choice, a.matchId);
    assert s.keys.ended.Live(w.now) ==> s.keys.deadline.Live(w.now);
  }

  lemma StepOnTime(w: World, a: Action, id: SessionId)
    requires Inv(w) && Enabled(w, a) && OnTime(At(w, id))
    ensures OnTime(At(Apply(w, a), id))
  {
    if a.SubmitChoice? && a.id == id {
      SubmissionOnTime(w, a, id);
    } else if a.SubmitChoice? {
      assert At(Apply(w, a), id) == At(w, id);
    }
  }

  lemma {:induction false} RunOnTime(tr: seq<World>, acts: seq<Action>, i: nat, id: SessionId)
    requires IsRun(tr, acts) && i < |tr|
    ensures OnTime(At(tr[i], id))
  {
    if i > 0 {
      RunOnTime(tr, acts, i - 1, id);
      RunInv(tr, acts, i - 1);
      StepOnTime(tr[i - 1], acts[i - 1], id);
    }
  }

  /** Before step `n` the user submitted this choice. */
  ghost predicate Submitted(acts: seq<Action>, n: nat, id: SessionId, u: UserId, c: Choice) {
    exists j: nat :: j < n && j < |acts| &&
      acts[j].SubmitChoice? && acts[j].id == id && acts[j].user == u && acts[j].choice == c
  }

  ghost predicate AllSubmitted(acts: seq<Action>, n: nat, id: SessionId, k: Keys) {
    k.choices.Cell? ==> forall u :: u in k.choices.value ==> Submitted(acts, n, id, u, k.choices.value[u])
  }

  lemma SubmittedLater(acts: seq<Action>, n: nat, m: nat, id: SessionId, u: UserId, c: Choice)
    requires n <= m && Submitted(acts, n, id, u, c)
    ensures Submitted(acts, m, id, u, c)
  {
  }

  lemma {:induction false} RunAllSubmitted(tr: seq<World>, acts: seq<Action>, i: nat, id: SessionId)
    requires IsRun(tr, acts) && i < |tr|
    ensures AllSubmitted(acts, i, id, At(tr[i], id).keys)
  {
    if i > 0 {
      RunAllSubmitted(tr, acts, i - 1, id);
      StepAllSubmitted(tr, acts, i - 1, id);
    }
  }

  lemma StepAllSubmitted(tr: seq<World>, acts: seq<Action>, i: nat, id: SessionId)
    requires IsRun(tr, acts) && i < |acts| && AllSubmitted(acts, i, id, At(tr[i], id).keys)
    ensures AllSubmitted(acts, i + 1, id, At(tr[i + 1], id).keys)
  {
    var k, k' := At(tr[i], id).keys, At(tr[i + 1], id).keys;
    if k'.choices.Cell? {
      forall u | u in k'.choices.value
        ensures Submitted(acts, i + 1, id, u, k'.choices.value[u])
      {
        if k.choices.Cell? && u in k.choices.value && k.choices.value[u] == k'.choices.value[u] {
          SubmittedLater(acts, i, i + 1, id, u, k'.choices.value[u]);
        } else {
          assert acts[i].SubmitChoice? && acts[i].id == id;
        }
      }
    }
  }

  /** The window of the session, 60 s from its end, is over. */
  ghost predicate WindowOver(w: World, id: SessionId) {
    var k := At(w, id).keys;
    && k.ended.Cell? && k.deadline.Cell?
    && k.deadline.value == k.ended.expiresAt - 3_600_000 + 60_000 && k.deadline.value <= w.now
  }

  /** Step `p` has a reason to decide for `o`. */
  ghost predicate Justified(tr: seq<World>, acts: seq<Action>, p: nat, id: SessionId, o: Outcome)
    requires IsRun(tr, acts) && p < |acts|
  {
    || (o == D.NonMutual && WindowOver(tr[p], id))
    || (&& acts[p].SubmitChoice? && acts[p].id == id
        && var users := tr[p].rows[id];
           if o.Mutual? then
             Submitted(acts, p + 1, id, users.userA, D.MATCH) && Submitted(acts, p + 1, id, users.userB, D.MATCH)
           else
             Submitted(acts, p + 1, id, users.userA, D.PASS) || Submitted(acts, p + 1, id, users.userB, D.PASS))
  }

  lemma SubmissionJustified(tr: seq<World>, acts: seq<Action>, p: nat, id: SessionId)
    requires IsRun(tr, acts) && p < |acts| && acts[p].SubmitChoice? && acts[p].id == id
    requires At(tr[p + 1], id).sent.outcomes != At(tr[p], id).sent.outcomes
    ensures var n := |At(tr[p], id).sent.outcomes|;
            At(tr[p + 1], id).sent.outcomes[..n] == At(tr[p], id).sent.outcomes &&
            |At(tr[p + 1], id).sent.outcomes| == n + 1 && Justified(tr, acts, p, id, At(tr[p + 1], id).sent.outcomes[n])
  {
    var s, a, users := At(tr[p], id), acts[p], tr[p].rows[id];
    SubmitAnswers(s, tr[p].now, users, a.user, a.choice, a.matchId);
    RunInv(tr, acts, p);
    RunOnTime(tr, acts, p, id);
    RunAllSubmitted(tr, acts, p + 1, id);
  }

  /** A step that sends an outcome has a reason for it. */
  lemma StepJustified(tr: seq<World>, acts: seq<Action>, p: nat, id: SessionId)
    requires IsRun(tr, acts) && p < |acts| && At(tr[p + 1], id).sent.outcomes != At(tr[p], id).sent.outcomes
    ensures var n := |At(tr[p], id).sent.outcomes|;
            At(tr[p + 1], id).sent.outcomes[..n] == At(tr[p], id).sent.outcomes &&
            |At(tr[p + 1], id).sent.outcomes| == n + 1 && Justified(tr, acts, p, id, At(tr[p + 1], id).sent.outcomes[n])
  {
    RunInv(tr, acts, p);
    RunOnTime(tr, acts, p, id);
    if acts[p].SubmitChoice? && acts[p].id == id {
      SubmissionJustified(tr, acts, p, id);
    }
  }

  // ---- Main results ----

  /** In every run, crashes included, a session with a mutual outcome had MATCH submitted by both of its
      users, and one with another outcome PASS by one of them, or was decided when the 60 s from its end
      were over. */
  lemma {:induction false} OutcomeJustified(tr: seq<World>, acts: seq<Action>, i: nat, id: SessionId)
    requires IsRun(tr, acts) && i < |tr| && At(tr[i], id).sent.outcomes != []
    ensures exists p: nat :: p < i && Justified(tr, acts, p, id, At(tr[i], id).sent.outcomes[0])
  {
    RunInv(tr, acts, i);
    RunInv(tr, acts, i - 1);
    if At(tr[i - 1], id).sent.outcomes == At(tr[i], id).sent.outcomes {
      OutcomeJustified(tr, acts, i - 1, id);
    } else {
      StepJustified(tr, acts, i - 1, id);
    }
  }
}
