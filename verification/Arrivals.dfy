/**
 * Who is served first, over whole runs of the ledger: a user's place in a queue comes from the time of the
 * join that queued them, and only a deferral, for a block between the first two, ever moves anybody back.
 */
module Arrivals {
  import opened Redis
  import opened SortedSet
  import opened Text
  import opened Queue
  import opened Ledger
  import opened QueueContents

  /** Action `j` is the join since which `u` has been queued for `k`. */
  ghost predicate JoinedFrom(tr: seq<State>, acts: seq<Action>, j: nat, i: nat, u: UserId, k: Key)
    requires |tr| == |acts| + 1 && i < |tr|
  {
    && j < i && acts[j] == JoinQueue(u, k, false) && u !in tr[j].w.keys.entries
    && forall m :: j < m <= i ==> u in tr[m].w.keys.entries && tr[m].w.keys.entries[u] == Joined(k, tr[j].w.now)
  }

  /** The worker takes the first two of a queue, and one of them blocks the other. */
  ghost predicate Defers(s: State, a: Action, u: UserId) {
    && a.MatchOne?
    && var z := ZOf(s.w.keys, a.key);
       && |z| >= 2 && (u == z[0].member || u == z[1].member)
       && BlockedPair(s.w, z[0].member, z[1].member)
  }

  /** `u` was not deferred from `j` to `i`. */
  ghost predicate Undeferred(tr: seq<State>, acts: seq<Action>, j: nat, i: nat, u: UserId)
    requires |tr| == |acts| + 1 && i < |tr|
  {
    forall m :: j <= m < i ==> !Defers(tr[m], acts[m], u)
  }

  // ---- One step ----

  /** An entry after a step was there before, with its score or a later one if its user was deferred; or it
      is that of a user who joins now. */
  ghost predicate ComesFrom(s: State, a: Action, s': State, k: Key, e: Entry) {
    || (a == JoinQueue(e.member, k, false) && e.member !in s.w.keys.entries && e.score == s.w.now
        && e.member in s'.w.keys.entries && s'.w.keys.entries[e.member] == Joined(k, s.w.now))
    || (&& StillThere(s, s', e.member)
        && exists f :: f in ZOf(s.w.keys, k) && f.member == e.member
                       && if Defers(s, a, e.member) then e.score >= s.w.now else e == f)
  }

  ghost predicate StillThere(s: State, s': State, u: UserId) {
    && u in s.w.keys.entries && u in s'.w.keys.entries
    && s'.w.keys.entries[u] == s.w.keys.entries[u]
  }

  lemma QueuedHere(ks: Keys, k: Key, e: Entry)
    requires InStep(ks) && e in ZOf(ks, k)
    ensures QueuedIn(ks, e.member, k)
  {
    assert Has(ZOf(ks, k), e.member);
    assert InQueue(ks, e.member, k);
  }

  lemma JoinComesFrom(s: State, u: UserId, v: Key, fails: bool, k: Key, e: Entry)
    requires InStep(s.w.keys) && e in ZOf(Apply(s, JoinQueue(u, v, fails)).w.keys, k)
    ensures ComesFrom(s, JoinQueue(u, v, fails), Apply(s, JoinQueue(u, v, fails)), k, e)
  {
    var (w', r) := Join(s.w, u, v, fails);
    JoinContents(s.w, u, v, fails, w', r);
    if e in ZOf(s.w.keys, k) { QueuedHere(s.w.keys, k, e); }
  }

  lemma LeaveComesFrom(s: State, u: UserId, k: Key, e: Entry)
    requires InStep(s.w.keys) && e in ZOf(Apply(s, LeaveQueue(u)).w.keys, k)
    ensures ComesFrom(s, LeaveQueue(u), Apply(s, LeaveQueue(u)), k, e)
  {
    var (w', r) := Leave(s.w, u);
    LeaveContents(s.w, u, w', r);
    assert e in ZOf(s.w.keys, k);
    QueuedHere(s.w.keys, k, e);
  }

  lemma RemoveComesFrom(s: State, u: UserId, k: Key, e: Entry)
    requires InStep(s.w.keys) && e in ZOf(Apply(s, RemoveFromQueue(u)).w.keys, k)
    ensures ComesFrom(s, RemoveFromQueue(u), Apply(s, RemoveFromQueue(u)), k, e)
  {
    RemoveContents(s.w, u);
    assert e in ZOf(s.w.keys, k);
    QueuedHere(s.w.keys, k, e);
  }

  function Popped(w: World, k: Key): World
    requires |ZOf(w.keys, k)| >= 2
  {
    w.(keys := PutZ(w.keys, k, ZOf(w.keys, k)[2..]))
  }

  /** One round: the first two are deferred, put back as they were, or matched. */
  lemma RoundIs(w: World, k: Key, busy: set<UserId>)
    requires InStep(w.keys) && |ZOf(w.keys, k)| >= 2
    ensures var z := ZOf(w.keys, k);
            var (w1, p) := (Popped(w, k), Pair(z[0], z[1]));
            && FirstTwoApart(z)
            && Iterate(w, k, busy).0
               == if BlockedPair(w, z[0].member, z[1].member) then w1.(keys := PutBackPair(w1.keys, k, Deferred(w1, p)))
                  else if z[0].member in busy || z[1].member in busy then w1.(keys := PutBackPair(w1.keys, k, p))
                  else Commit(w1, k, z[0].member, z[1].member)
  {
    var z := ZOf(w.keys, k);
    PopInStep(w.keys, k);
    TakeIsMin(z, 2);
    assert z[0] in Take(z, 2) && z[1] in Take(z, 2);
    var (w1, p) := (Popped(w, k), Pair(z[0], z[1]));
    assert PopPair(w.keys, k) == (w1.keys, Some(p));
    AttemptEnds(w1, k, p, busy);
  }

  /** Each popped user is put back with the old score, or with one that is not in the past. */
  ghost predicate PutBackFrom(w: World, w': World, k: Key, p: Pair) {
    var z := ZOf(w.keys, k);
    && FirstTwoApart(z) && p.a.member == z[0].member && p.b.member == z[1].member
    && (if BlockedPair(w, z[0].member, z[1].member) then p.a.score >= w.now && p.b.score >= w.now
        else p == Pair(z[0], z[1]))
    && w' == Popped(w, k).(keys := PutBackPair(Popped(w, k).keys, k, p))
  }

  lemma PutBackComesFrom(s: State, a: Action, s': State, p: Pair, k: Key, e: Entry)
    requires InStep(s.w.keys) && a.MatchOne? && PutBackFrom(s.w, s'.w, a.key, p) && e in ZOf(s'.w.keys, k)
    ensures ComesFrom(s, a, s', k, e)
  {
    var z := ZOf(s.w.keys, a.key);
    PutBackPairGains(Popped(s.w, a.key).keys, a.key, p);
    assert z[0] in z && z[1] in z;
    var f := if k != a.key then e else if e == p.a then z[0] else if e == p.b then z[1] else e;
    assert f in ZOf(s.w.keys, k) && f.member == e.member;
    QueuedHere(s.w.keys, k, f);
    if Defers(s, a, e.member) && k != a.key {
      QueuedHere(s.w.keys, a.key, if e.member == z[0].member then z[0] else z[1]);
    }
  }

  lemma CommitComesFrom(s: State, a: Action, s': State, k: Key, e: Entry)
    requires InStep(s.w.keys) && a.MatchOne? && |ZOf(s.w.keys, a.key)| >= 2 && FirstTwoApart(ZOf(s.w.keys, a.key))
    requires var z := ZOf(s.w.keys, a.key);
             !BlockedPair(s.w, z[0].member, z[1].member) &&
             s'.w == Commit(Popped(s.w, a.key), a.key, z[0].member, z[1].member)
    requires e in ZOf(s'.w.keys, k)
    ensures ComesFrom(s, a, s', k, e)
  {
    var z := ZOf(s.w.keys, a.key);
    assert e in ZOf(s.w.keys, k);
    QueuedHere(s.w.keys, k, e);
    QueuedHere(s.w.keys, a.key, z[0]);
    QueuedHere(s.w.keys, a.key, z[1]);
  }

  lemma MatchComesFrom(s: State, v: Key, busy: set<UserId>, k: Key, e: Entry)
    requires InStep(s.w.keys) && e in ZOf(Apply(s, MatchOne(v, busy)).w.keys, k)
    ensures ComesFrom(s, MatchOne(v, busy), Apply(s, MatchOne(v, busy)), k, e)
  {
    var a := MatchOne(v, busy);
    var s' := Apply(s, a);
    var z := ZOf(s.w.keys, v);
    if |z| < 2 {
      PopPairContents(s.w.keys, v, s'.w.keys, None);
      QueuedHere(s.w.keys, k, e);
    } else {
      RoundIs(s.w, v, busy);
      if BlockedPair(s.w, z[0].member, z[1].member) {
        PutBackComesFrom(s, a, s', Deferred(Popped(s.w, v), Pair(z[0], z[1])), k, e);
      } else if z[0].member in busy || z[1].member in busy {
        PutBackComesFrom(s, a, s', Pair(z[0], z[1]), k, e);
      } else {
        CommitComesFrom(s, a, s', k, e);
      }
    }
  }

  lemma StepComesFrom(s: State, a: Action, k: Key, e: Entry)
    requires InStep(s.w.keys) && Enabled(s, a) && e in ZOf(Apply(s, a).w.keys, k)
    ensures ComesFrom(s, a, Apply(s, a), k, e)
  {
    match a
    case JoinQueue(u, v, fails) => JoinComesFrom(s, u, v, fails, k, e);
    case LeaveQueue(u) => LeaveComesFrom(s, u, k, e);
    case RemoveFromQueue(u) => RemoveComesFrom(s, u, k, e);
    case MatchOne(v, busy) => MatchComesFrom(s, v, busy, k, e);
    case _ => QueuedHere(s.w.keys, k, e);
  }

  // ---- Runs ----

  lemma {:induction false} ClockRuns(tr: seq<State>, acts: seq<Action>, j: nat, i: nat)
    requires IsRun(tr, acts) && j <= i < |tr|
    ensures tr[j].w.now <= tr[i].w.now
  {
    if j < i {
      ClockRuns(tr, acts, j, i - 1);
      StepClock(tr[i - 1], acts[i - 1]);
    }
  }

  lemma StepClock(s: State, a: Action)
    requires Enabled(s, a)
    ensures s.w.now <= Apply(s, a).w.now
  {
  }

  lemma EntryComesFrom(tr: seq<State>, acts: seq<Action>, i: nat, k: Key, e: Entry)
    requires IsRun(tr, acts) && i < |tr| && e in ZOf(tr[i].w.keys, k)
    ensures i > 0 && ComesFrom(tr[i - 1], acts[i - 1], tr[i], k, e)
  {
    RunInv(tr, acts, i - 1);
    StepComesFrom(tr[i - 1], acts[i - 1], k, e);
  }

  /** `e` has the score of the join at `j`, or a later one if its user was deferred since. */
  ghost predicate ScoredBy(tr: seq<State>, acts: seq<Action>, j: nat, i: nat, k: Key, e: Entry)
    requires |tr| == |acts| + 1 && i < |tr|
  {
    && JoinedFrom(tr, acts, j, i, e.member, k)
    && tr[j].w.now <= e.score
    && (Undeferred(tr, acts, j, i, e.member) ==> e.score == tr[j].w.now)
  }

  lemma ScoredNow(tr: seq<State>, acts: seq<Action>, i: nat, k: Key, e: Entry)
    requires |tr| == |acts| + 1 && i < |acts| && ComesFrom(tr[i], acts[i], tr[i + 1], k, e)
    requires e.member !in tr[i].w.keys.entries
    ensures ScoredBy(tr, acts, i, i + 1, k, e)
  {
  }

  lemma ScoredStill(tr: seq<State>, acts: seq<Action>, j: nat, i: nat, k: Key, e: Entry, f: Entry)
    requires |tr| == |acts| + 1 && i < |acts| && ScoredBy(tr, acts, j, i, k, f) && e.member == f.member
    requires StillThere(tr[i], tr[i + 1], e.member) && tr[j].w.now <= tr[i].w.now
    requires if Defers(tr[i], acts[i], e.member) then e.score >= tr[i].w.now else e == f
    ensures ScoredBy(tr, acts, j, i + 1, k, e)
  {
    StaysJoined(tr, acts, j, i, e.member, k);
  }

  /** The score of an entry is the time of the join that queued its user, or later if the user was deferred
      since. */
  lemma {:induction false} ScoreIsTheJoin(tr: seq<State>, acts: seq<Action>, i: nat, k: Key, e: Entry)
      returns (j: nat)
    requires IsRun(tr, acts) && i < |tr| && e in ZOf(tr[i].w.keys, k)
    ensures ScoredBy(tr, acts, j, i, k, e)
  {
    EntryComesFrom(tr, acts, i, k, e);
    var s, a := tr[i - 1], acts[i - 1];
    if e.member !in s.w.keys.entries {
      j := i - 1;
      ScoredNow(tr, acts, i - 1, k, e);
    } else {
      var f :| f in ZOf(s.w.keys, k) && f.member == e.member && if Defers(s, a, e.member) then e.score >= s.w.now
                                                                else e == f;
      j := ScoreIsTheJoin(tr, acts, i - 1, k, f);
      ClockRuns(tr, acts, j, i - 1);
      ScoredStill(tr, acts, j, i - 1, k, e, f);
    }
  }

  lemma StaysJoined(tr: seq<State>, acts: seq<Action>, j: nat, i: nat, u: UserId, k: Key)
    requires |tr| == |acts| + 1 && i < |acts| && JoinedFrom(tr, acts, j, i, u, k) && StillThere(tr[i], tr[i + 1], u)
    ensures JoinedFrom(tr, acts, j, i + 1, u, k)
    ensures Undeferred(tr, acts, j, i + 1, u) ==> Undeferred(tr, acts, j, i, u) && !Defers(tr[i], acts[i], u)
  {
  }

  /** There is one such join. */
  lemma OneJoin(tr: seq<State>, acts: seq<Action>, j: nat, j': nat, i: nat, u: UserId, k: Key)
    requires |tr| == |acts| + 1 && i < |tr|
    requires JoinedFrom(tr, acts, j, i, u, k) && JoinedFrom(tr, acts, j', i, u, k)
    ensures j == j'
  {
  }

  /** First come, first served. A queued user who was not deferred since joining stands before everybody
      who joined the queue at a later time, deferred or not. */
  lemma FirstComeFirstServed(tr: seq<State>, acts: seq<Action>, i: nat, k: Key, p: nat, q: nat, j: nat, l: nat)
    requires IsRun(tr, acts) && i < |tr| && p < |ZOf(tr[i].w.keys, k)| && q < |ZOf(tr[i].w.keys, k)|
    requires var z := ZOf(tr[i].w.keys, k);
             JoinedFrom(tr, acts, j, i, z[p].member, k) && JoinedFrom(tr, acts, l, i, z[q].member, k) &&
             Undeferred(tr, acts, j, i, z[p].member) && tr[j].w.now < tr[l].w.now
    ensures p < q
  {
    var z := ZOf(tr[i].w.keys, k);
    var j' := ScoreIsTheJoin(tr, acts, i, k, z[p]);
    var l' := ScoreIsTheJoin(tr, acts, i, k, z[q]);
    OneJoin(tr, acts, j, j', i, z[p].member, k);
    OneJoin(tr, acts, l, l', i, z[q].member, k);
    RunInv(tr, acts, i);
    SortedIsInOrder(z);
  }

  /** Where nobody was deferred, a queue is in the order of the joins, by user id within a millisecond. */
  lemma QueueIsByArrival(tr: seq<State>, acts: seq<Action>, i: nat, k: Key, p: nat, q: nat) returns (j: nat, l: nat)
    requires IsRun(tr, acts) && i < |tr| && p < q < |ZOf(tr[i].w.keys, k)|
    requires forall u :: Undeferred(tr, acts, 0, i, u)
    ensures var z := ZOf(tr[i].w.keys, k);
            && JoinedFrom(tr, acts, j, i, z[p].member, k) && JoinedFrom(tr, acts, l, i, z[q].member, k)
            && (tr[j].w.now < tr[l].w.now ||
                (tr[j].w.now == tr[l].w.now && EarlierText(z[p].member, z[q].member)))
  {
    var z := ZOf(tr[i].w.keys, k);
    j := ScoreIsTheJoin(tr, acts, i, k, z[p]);
    l := ScoreIsTheJoin(tr, acts, i, k, z[q]);
    assert Undeferred(tr, acts, 0, i, z[p].member) && Undeferred(tr, acts, 0, i, z[q].member);
    RunInv(tr, acts, i);
    SortedIsInOrder(z);
  }

  ghost predicate StandsAt(ks: Keys, k: Key, u: UserId, p: nat) {
    p < |ZOf(ks, k)| && ZOf(ks, k)[p].member == u
  }

  lemma PlaceOf(tr: seq<State>, acts: seq<Action>, i: nat, k: Key, u: UserId) returns (p: nat)
    requires IsRun(tr, acts) && i < |tr| && QueuedIn(tr[i].w.keys, u, k)
    ensures StandsAt(tr[i].w.keys, k, u, p)
  {
    RunInv(tr, acts, i);
    assert InQueue(tr[i].w.keys, u, k);
    assert Has(ZOf(tr[i].w.keys, k), u);
    p :| 0 <= p < |ZOf(tr[i].w.keys, k)| && ZOf(tr[i].w.keys, k)[p].member == u;
  }

  /** A session is made of the first two of the queue. */
  lemma SessionOfFirstTwo(w: World, k: Key, busy: set<UserId>)
    requires InStep(w.keys)
    ensures var w' := Iterate(w, k, busy).0;
            |w'.db.sessions| > |w.db.sessions| ==>
              var z := ZOf(w.keys, k);
              |z| >= 2 && w'.db.sessions == w.db.sessions + [Session(z[0].member, z[1].member, k)]
  {
    if |ZOf(w.keys, k)| >= 2 {
      RoundIs(w, k, busy);
    } else {
      ShortIterate(w, k, busy);
    }
  }

  /** Nobody is passed over: when a session is made, a user who stays in the queue and was not deferred
      since joining did not join before either of the two who are matched. */
  lemma NobodyIsPassedOver(tr: seq<State>, acts: seq<Action>, i: nat, k: Key, busy: set<UserId>,
                           u: UserId, j: nat, v: UserId, l: nat)
    requires IsRun(tr, acts) && i < |acts| && acts[i] == MatchOne(k, busy)
    requires |tr[i + 1].w.db.sessions| > |tr[i].w.db.sessions|
    requires var x := tr[i + 1].w.db.sessions[|tr[i].w.db.sessions|];
             (v == x.userA || v == x.userB) && u != x.userA && u != x.userB
    requires JoinedFrom(tr, acts, j, i, u, k) && Undeferred(tr, acts, j, i, u) && JoinedFrom(tr, acts, l, i, v, k)
    ensures tr[l].w.now <= tr[j].w.now
  {
    RunInv(tr, acts, i);
    SessionOfFirstTwo(tr[i].w, k, busy);
    var p := PlaceOf(tr, acts, i, k, u);
    var q: nat := if v == ZOf(tr[i].w.keys, k)[0].member then 0 else 1;
    if tr[j].w.now < tr[l].w.now {
      FirstComeFirstServed(tr, acts, i, k, p, q, j, l);
    }
  }
}
